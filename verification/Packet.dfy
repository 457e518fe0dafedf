/** The packets TunWorker writes to the TUN device and the parser for those it reads. */
module Packet {
  import opened Bytes
  import opened Buffers
  import opened Checksum

  // ---- What sendTcpPacket builds ----

  datatype Fields = Fields(srcIp: int, srcPort: int, dstIp: int, dstPort: int, seqNum: int, ack: int, flags: int)

  function IpFront(total: nat): (h: bytes)
    ensures |h| == 10
  {
    [0x45] + [0] + Be16(total) + Be16(0) + Be16(0x4000) + [64] + [6]
  }

  function IpBack(f: Fields): (h: bytes)
    ensures |h| == 8
  {
    Be32(f.srcIp) + Be32(f.dstIp)
  }

  function IpHeader(f: Fields, total: nat, checksum: nat): (h: bytes)
    ensures |h| == 20
  {
    IpFront(total) + (Be16(checksum) + IpBack(f))
  }

  function Numbers(f: Fields): (s: bytes)
    ensures |s| == 12
  {
    Be16(f.srcPort) + Be16(f.dstPort) + Be32(f.seqNum) + Be32(f.ack)
  }

  function TcpFront(f: Fields): (h: bytes)
    ensures |h| == 16
  {
    Numbers(f) + [0x50] + [Byte(f.flags)] + Be16(65535)
  }

  function TcpSegment(f: Fields, checksum: nat, payload: bytes): (s: bytes)
    ensures |s| == 20 + |payload|
  {
    TcpFront(f) + (Be16(checksum) + (Be16(0) + payload))
  }

  function IpSum(f: Fields, total: nat): (c: nat)
    ensures c <= 0xFFFF
  {
    FoldIs(WordSum(IpHeader(f, total, 0)));
    Complement(Fold(WordSum(IpHeader(f, total, 0))))
  }

  function TcpSum(f: Fields, payload: bytes): (c: nat)
    ensures c <= 0xFFFF
  {
    FoldIs(WordSum(Pseudo(f.srcIp, f.dstIp, 20 + |payload|) + TcpSegment(f, 0, payload)));
    Complement(Fold(WordSum(Pseudo(f.srcIp, f.dstIp, 20 + |payload|) + TcpSegment(f, 0, payload))))
  }

  /** The packet for given fields and payload. */
  function PacketBytes(f: Fields, payload: bytes): (p: bytes)
    ensures |p| == 40 + |payload|
  {
    IpHeader(f, 40 + |payload|, IpSum(f, 40 + |payload|)) + TcpSegment(f, TcpSum(f, payload), payload)
  }

  // ---- Checksums at the receiver ----

  lemma PositiveSum(s: bytes)
    requires 2 <= |s| && s[0] != 0
    ensures 0 < WordSum(s)
  {
  }

  /** The test of section 1 of RFC 1071: the one's-complement sum of all words, the last one padded, is all ones. */
  predicate SumsToOnes(s: bytes) {
    0 < Weighed(s) && Weighed(s) % 0xFFFF == 0
  }

  lemma OnesIff(s: bytes)
    ensures SumsToOnes(s) <==> Fold(WordSum(s)) == 0xFFFF
  {
    WordSumIsWeighed(s);
    FoldIs(WordSum(s));
  }

  /** The pseudo-header as a receiver makes it from a packet: addresses, zero, protocol, length of the segment. */
  function PseudoOf(p: bytes): bytes
    requires 20 <= |p|
  {
    p[12..20] + [0, p[9]] + Be16(|p| - 20)
  }

  /**
    * Every packet verifies at its receiver: over the IPv4 header (section 3.1 of RFC 791), and over the
    * segment behind the pseudo-header of the packet itself (section 3.1 of RFC 9293).
    */
  lemma PacketVerifies(f: Fields, payload: bytes)
    ensures var p := PacketBytes(f, payload); SumsToOnes(p[..20]) && SumsToOnes(PseudoOf(p) + p[20..])
  {
    var p, total := PacketBytes(f, payload), 40 + |payload|;
    var ip, tcp := IpHeader(f, total, IpSum(f, 40 + |payload|)), TcpSegment(f, TcpSum(f, payload), payload);
    assert p[..20] == ip && p[20..] == tcp;
    IpHeaderVerifies(f, payload);
    SegmentVerifies(f, payload);
    PseudoSeen(f, total, IpSum(f, 40 + |payload|), p);
    OnesIff(p[..20]);
    OnesIff(PseudoOf(p) + p[20..]);
  }

  lemma PseudoSeen(f: Fields, total: nat, checksum: nat, p: bytes)
    requires 20 <= |p| && p[..20] == IpHeader(f, total, checksum)
    ensures PseudoOf(p) == Pseudo(f.srcIp, f.dstIp, |p| - 20)
  {
    var h := IpHeader(f, total, checksum);
    assert h[12..20] == IpBack(f) && h[9] == 6;
    assert p[12..20] == p[..20][12..20] && p[9] == p[..20][9];
  }

  /** Two bytes, or four, in network order. */
  predicate Shows16(p: bytes, at: nat, n: int) {
    at + 2 <= |p| && 256 * p[at] as int + p[at + 1] as int == n % 0x1_0000
  }

  predicate Shows32(p: bytes, at: nat, n: int) {
    && at + 4 <= |p|
    && 0x100_0000 * p[at] as int + 0x1_0000 * p[at + 1] as int + 0x100 * p[at + 2] as int + p[at + 3] as int
       == n % 0x1_0000_0000
  }

  /** Where each field stands (section 3.1 of RFC 791, section 3.1 of RFC 9293). */
  lemma FieldPositions(f: Fields, payload: bytes)
    ensures var p := PacketBytes(f, payload);
            && Shows32(p, 12, f.srcIp) && Shows32(p, 16, f.dstIp)
            && Shows16(p, 20, f.srcPort) && Shows16(p, 22, f.dstPort)
            && Shows32(p, 24, f.seqNum) && Shows32(p, 28, f.ack) && p[40..] == payload
  {
    var p, total := PacketBytes(f, payload), 40 + |payload|;
    var ip, tcp := IpHeader(f, total, IpSum(f, 40 + |payload|)), TcpSegment(f, TcpSum(f, payload), payload);
    HoldsWhole(p);
    HoldsSplit(p, 0, ip, 20, tcp);
    IpParts(p, f, total, IpSum(f, total));
    SegmentParts(p, f, TcpSum(f, payload), payload);
    TcpParts(p, f);
    WordShown(p, 12, f.srcIp);
    WordShown(p, 16, f.dstIp);
    WordShown(p, 24, f.seqNum);
    WordShown(p, 28, f.ack);
  }

  lemma WordShown(p: bytes, at: nat, n: int)
    requires at + 4 <= |p| && WordAt32(p, at) == Wrap32(n)
    ensures Shows32(p, at, n)
  {
    BigEndian32(p[at], p[at + 1], p[at + 2], p[at + 3],
                0x100_0000 * p[at] as nat + 0x1_0000 * p[at + 1] as nat + 0x100 * p[at + 2] as nat + p[at + 3] as nat);
  }

  /**
    * The fixed fields, byte by byte: version and header length, total length, don't fragment, time to live, TCP;
    * then the TCP header's length, flags, window and urgent pointer.
    */
  lemma FixedFields(f: Fields, payload: bytes)
    requires 40 + |payload| < 0x1_0000
    ensures var p := PacketBytes(f, payload);
            && p[0] == 0x45 && p[1] == 0 && LenAt(p, 2) == |p| && p[4..10] == [0, 0, 0x40, 0, 64, 6]
            && p[32] == 0x50 && p[33] as int == f.flags % 256 && p[34..36] == [0xFF, 0xFF] && p[38..40] == [0, 0]
  {
    var p, total := PacketBytes(f, payload), 40 + |payload|;
    var ip, tcp := IpHeader(f, total, IpSum(f, 40 + |payload|)), TcpSegment(f, TcpSum(f, payload), payload);
    HoldsWhole(p);
    HoldsSplit(p, 0, ip, 20, tcp);
    HoldsSplit(p, 0, IpFront(total), 10, Be16(IpSum(f, total)) + IpBack(f));
    FrontFields(p, total);
    SegmentFields(p, f, TcpSum(f, payload), payload);
  }

  lemma FrontFields(p: bytes, total: nat)
    requires Holds(p, 0, IpFront(total)) && total < 0x1_0000
    ensures p[0] == 0x45 && p[1] == 0 && LenAt(p, 2) == total && p[4..10] == [0, 0, 0x40, 0, 64, 6]
  {
    var tail: bytes := [0, 0, 0x40, 0, 64, 6];
    assert Be16(0) == [0, 0] && Be16(0x4000) == [0x40, 0];
    assert IpFront(total) == [0x45, 0] + (Be16(total) + tail);
    HoldsSplit(p, 0, [0x45, 0], 2, Be16(total) + tail);
    HoldsSplit(p, 2, Be16(total), 4, tail);
    HoldsByte(p, 0, [0x45, 0], 0);
    HoldsByte(p, 0, [0x45, 0], 1);
    HoldsLen(p, 2, total);
  }

  lemma SegmentFields(p: bytes, f: Fields, c: nat, payload: bytes)
    requires Holds(p, 20, TcpSegment(f, c, payload))
    ensures 40 <= |p| && p[32] == 0x50 && p[33] as int == f.flags % 256
    ensures p[34..36] == [0xFF, 0xFF] && p[38..40] == [0, 0]
  {
    var numbers := Numbers(f);
    HoldsSplit(p, 20, TcpFront(f), 36, Be16(c) + (Be16(0) + payload));
    HoldsSplit(p, 36, Be16(c), 38, Be16(0) + payload);
    HoldsSplit(p, 38, Be16(0), 40, payload);
    HoldsSplit(p, 20, numbers + [0x50] + [Byte(f.flags)], 34, Be16(65535));
    HoldsSplit(p, 20, numbers + [0x50], 33, [Byte(f.flags)]);
    HoldsSplit(p, 20, numbers, 32, [0x50]);
    HoldsByte(p, 32, [0x50], 0);
    HoldsByte(p, 33, [Byte(f.flags)], 0);
  }

  lemma IpHeaderVerifies(f: Fields, payload: bytes)
    ensures Fold(WordSum(IpHeader(f, 40 + |payload|, IpSum(f, 40 + |payload|)))) == 0xFFFF
  {
    var total := 40 + |payload|;
    PositiveSum(IpHeader(f, total, 0));
    InsertedVerifies(IpFront(total), IpBack(f), WordSum(IpHeader(f, total, 0)), IpSum(f, 40 + |payload|));
  }

  lemma SegmentVerifies(f: Fields, payload: bytes)
    ensures var segment := TcpSegment(f, TcpSum(f, payload), payload);
            Fold(WordSum(Pseudo(f.srcIp, f.dstIp, 20 + |payload|) + segment)) == 0xFFFF
  {
    var pseudo, front := Pseudo(f.srcIp, f.dstIp, 20 + |payload|), TcpFront(f);
    var after, c := Be16(0) + payload, TcpSum(f, payload);
    ConcatAssoc(pseudo, front, Be16(0) + after);
    ConcatAssoc(pseudo, front, Be16(c) + after);
    var zeroed := pseudo + TcpSegment(f, 0, payload);
    WordSumConcat(pseudo, TcpSegment(f, 0, payload));
    PseudoPositive(f.srcIp, f.dstIp, 20 + |payload|);
    InsertedVerifies(pseudo + front, after, WordSum(zeroed), c);
  }

  lemma PseudoPositive(srcIp: int, dstIp: int, tcpLen: nat)
    ensures 0 < WordSum(Pseudo(srcIp, dstIp, tcpLen))
  {
    var addresses := Be32(srcIp) + Be32(dstIp);
    var s := [0, 6] + Be16(tcpLen);
    assert Pseudo(srcIp, dstIp, tcpLen) == addresses + s;
    WordSumConcat(addresses, s);
    assert U16(0, 6) == 6;
  }

  // ---- The code that fills the buffer ----

  method PutIpFront(buf: ByteBuffer, total: nat)
    requires buf.position == 0 && 20 <= buf.data.Length
    modifies buf, buf.data
    ensures buf.position == 10 && buf.Written() == IpFront(total)
  {
    buf.Put(0x45);
    buf.Put(0x00);
    buf.PutShort(total);
    buf.PutShort(0);
    buf.PutShort(0x4000);
    buf.Put(64);
    buf.Put(6);
    assert [] + [0x45] == [0x45];
  }

  method PutIpBack(buf: ByteBuffer, f: Fields)
    requires buf.position == 10 && 20 <= buf.data.Length
    modifies buf, buf.data
    ensures buf.position == 20 && buf.Written() == old(buf.Written()) + (Be16(0) + IpBack(f))
  {
    ghost var front := buf.Written();
    buf.PutShort(0);
    buf.PutInt(f.srcIp);
    buf.PutInt(f.dstIp);
    ConcatAssoc(front + Be16(0), Be32(f.srcIp), Be32(f.dstIp));
    ConcatAssoc(front, Be16(0), IpBack(f));
  }

  method PutIpHeader(buf: ByteBuffer, f: Fields, total: nat)
    requires buf.position == 0 && 20 <= buf.data.Length
    modifies buf, buf.data
    ensures buf.position == 20 <= buf.data.Length && buf.Written() == IpHeader(f, total, IpSum(f, total))
  {
    PutIpFront(buf, total);
    PutIpBack(buf, f);
    ghost var header := IpHeader(f, total, 0);
    assert buf.data[0..20] == header;
    var checksum := IpChecksum(buf.data, 0, 20);
    assert header[..10] == IpFront(total) && header[12..] == IpBack(f);
    buf.PutShortAt(10, checksum);
  }

  method PutNumbers(buf: ByteBuffer, f: Fields)
    requires buf.Valid() && buf.position + 12 <= buf.data.Length
    modifies buf, buf.data
    ensures buf.Valid() && buf.position == old(buf.position) + 12
    ensures buf.Written() == old(buf.Written()) + Numbers(f)
  {
    ghost var before, ports := buf.Written(), Be16(f.srcPort) + Be16(f.dstPort);
    buf.PutShort(f.srcPort);
    buf.PutShort(f.dstPort);
    ConcatAssoc(before, Be16(f.srcPort), Be16(f.dstPort));
    buf.PutInt(f.seqNum);
    ConcatAssoc(before, ports, Be32(f.seqNum));
    buf.PutInt(f.ack);
    ConcatAssoc(before, ports + Be32(f.seqNum), Be32(f.ack));
  }

  method PutTcpFront(buf: ByteBuffer, f: Fields)
    requires buf.Valid() && buf.position + 16 <= buf.data.Length
    modifies buf, buf.data
    ensures buf.Valid() && buf.position == old(buf.position) + 16
    ensures buf.Written() == old(buf.Written()) + TcpFront(f)
  {
    ghost var before := buf.Written();
    PutNumbers(buf, f);
    buf.Put(0x50);
    ConcatAssoc(before, Numbers(f), [0x50]);
    buf.Put(Byte(f.flags));
    ConcatAssoc(before, Numbers(f) + [0x50], [Byte(f.flags)]);
    buf.PutShort(65535);
    ConcatAssoc(before, Numbers(f) + [0x50] + [Byte(f.flags)], Be16(65535));
  }

  method PutTcp(buf: ByteBuffer, f: Fields, payload: bytes)
    requires buf.Valid() && buf.position + 20 + |payload| <= buf.data.Length
    modifies buf, buf.data
    ensures buf.Valid() && buf.position == old(buf.position) + 20 + |payload|
    ensures buf.Written() == old(buf.Written()) + TcpSegment(f, 0, payload)
  {
    ghost var before, front := buf.Written(), TcpFront(f);
    PutTcpFront(buf, f);
    buf.PutShort(0);
    buf.PutShort(0);
    if 0 < |payload| {
      buf.PutBytes(payload);
    } else {
      assert buf.Written() + payload == buf.Written();
    }
    ConcatAssoc(before + front + Be16(0), Be16(0), payload);
    ConcatAssoc(before + front, Be16(0), Be16(0) + payload);
    ConcatAssoc(before, front, Be16(0) + (Be16(0) + payload));
  }

  /** sendTcpPacket up to the write; IPv4 limits the whole packet to 65535 bytes. */
  method Build(f: Fields, payload: bytes) returns (packet: bytes)
    requires 40 + |payload| <= 65535
    ensures packet == PacketBytes(f, payload)
  {
    var total := 40 + |payload|;
    var buf := new ByteBuffer(total);
    PutIpHeader(buf, f, total);
    PutTcpSegment(buf, f, payload);
    assert buf.data[..] == buf.Written();
    packet := buf.data[..];
  }

  method PutTcpSegment(buf: ByteBuffer, f: Fields, payload: bytes)
    requires buf.position == 20 && buf.data.Length == 40 + |payload| <= 65535
    modifies buf, buf.data
    ensures buf.position == buf.data.Length
    ensures buf.Written() == old(buf.Written()) + TcpSegment(f, TcpSum(f, payload), payload)
  {
    ghost var ip, zeroed := buf.Written(), TcpSegment(f, 0, payload);
    PutTcp(buf, f, payload);
    assert buf.Written()[20..] == zeroed;
    var checksum := SegmentChecksum(buf, f, payload);
    buf.PutShortAt(36, checksum);
    ChecksumPlace(ip, f, payload, checksum);
  }

  method SegmentChecksum(buf: ByteBuffer, f: Fields, payload: bytes) returns (checksum: nat)
    requires buf.position == buf.data.Length == 40 + |payload| <= 65535
    requires buf.Written()[20..] == TcpSegment(f, 0, payload)
    ensures checksum == TcpSum(f, payload)
  {
    assert buf.data[20..20 + (20 + |payload|)] == buf.Written()[20..];
    checksum := TcpChecksum(buf.data, f.srcIp, f.dstIp, 20 + |payload|);
  }

  lemma ChecksumPlace(ip: bytes, f: Fields, payload: bytes, checksum: nat)
    requires |ip| == 20
    ensures var w := ip + TcpSegment(f, 0, payload);
            w[..36] + (Be16(checksum) + w[38..]) == ip + TcpSegment(f, checksum, payload)
  {
    var w := ip + TcpSegment(f, 0, payload);
    assert w[..36] == ip + TcpFront(f) && w[38..] == Be16(0) + payload;
    ConcatAssoc(ip, TcpFront(f), Be16(checksum) + (Be16(0) + payload));
  }

  // ---- The parser ----

  datatype Segment = Segment(srcIp: int, srcPort: nat, dstIp: int, dstPort: nat, seqNum: nat, ackNum: nat,
                             flags: byte, payloadStart: nat, payloadLen: int)

  function Wrap32(n: int): nat {
    n % 0x1_0000_0000
  }

  /** The low 32 bits as a signed Int. */
  function Signed32(n: int): int {
    if Wrap32(n) < 0x8000_0000 then Wrap32(n) else Wrap32(n) - 0x1_0000_0000
  }

  function WordAt32(s: bytes, pos: nat): nat
    requires pos + 4 <= |s|
  {
    U32(s[pos], s[pos + 1], s[pos + 2], s[pos + 3])
  }

  /** The header fields handleTcpPacket reads at and after ihl; every access is inside the packet. */
  function SegmentAt(pkt: bytes, ihl: nat): Segment
    requires ihl + 20 <= |pkt|
  {
    var start := ihl + DataOffset(pkt[ihl + 12]);
    Segment(Signed32(WordAt32(pkt, 12)), LenAt(pkt, ihl), Signed32(WordAt32(pkt, 16)), LenAt(pkt, ihl + 2),
            WordAt32(pkt, ihl + 4), WordAt32(pkt, ihl + 8), pkt[ihl + 13], start, |pkt| - start)
  }

  /** The high nibble in 32-bit words, as bytes. */
  function DataOffset(b: byte): nat {
    (b / 16) as nat * 4
  }

  /** The low nibble in 32-bit words, as bytes. */
  function HeaderLength(b: byte): nat {
    (b % 16) as nat * 4
  }

  /** handlePacket and handleTcpPacket up to the dispatch. */
  function ParseTcp(pkt: bytes): Option<Segment> {
    if |pkt| < 20 || pkt[0] / 16 != 4 then None
    else
      var ihl := HeaderLength(pkt[0]);
      if |pkt| < ihl || pkt[9] != 6 || |pkt| < ihl + 20 then None else Some(SegmentAt(pkt, ihl))
  }

  /** Exactly which packets are looked at: IPv4, TCP, with both headers' fixed parts inside. */
  lemma ParsedIff(pkt: bytes)
    ensures ParseTcp(pkt).Some? <==>
            && 20 <= |pkt| && 0x40 <= pkt[0] < 0x50 && pkt[9] == 6
            && 4 * (pkt[0] as nat - 0x40) + 20 <= |pkt|
  {
  }

  lemma HoldsWord(s: bytes, pos: nat, n: int)
    requires Holds(s, pos, Be32(n))
    ensures pos + 4 <= |s| && WordAt32(s, pos) == Wrap32(n)
  {
    HoldsByte(s, pos, Be32(n), 0);
    HoldsByte(s, pos, Be32(n), 1);
    HoldsByte(s, pos, Be32(n), 2);
    HoldsByte(s, pos, Be32(n), 3);
    Be32RoundTrip(n);
  }

  lemma HoldsShort(s: bytes, pos: nat, n: int)
    requires Holds(s, pos, Be16(n))
    ensures pos + 2 <= |s| && LenAt(s, pos) == n % 0x1_0000
  {
    HoldsByte(s, pos, Be16(n), 0);
    HoldsByte(s, pos, Be16(n), 1);
    Be16RoundTrip(n);
  }

  lemma IpParts(p: bytes, f: Fields, total: nat, checksum: nat)
    requires Holds(p, 0, IpHeader(f, total, checksum))
    ensures p[0] == 0x45 && p[9] == 6 && WordAt32(p, 12) == Wrap32(f.srcIp) && WordAt32(p, 16) == Wrap32(f.dstIp)
  {
    HoldsByte(p, 0, IpHeader(f, total, checksum), 0);
    HoldsByte(p, 0, IpHeader(f, total, checksum), 9);
    HoldsSplit(p, 0, IpFront(total), 10, Be16(checksum) + IpBack(f));
    HoldsSplit(p, 10, Be16(checksum), 12, IpBack(f));
    HoldsSplit(p, 12, Be32(f.srcIp), 16, Be32(f.dstIp));
    HoldsWord(p, 12, f.srcIp);
    HoldsWord(p, 16, f.dstIp);
  }

  lemma TcpParts(p: bytes, f: Fields)
    requires Holds(p, 20, TcpFront(f))
    ensures LenAt(p, 20) == f.srcPort % 0x1_0000 && LenAt(p, 22) == f.dstPort % 0x1_0000
    ensures WordAt32(p, 24) == Wrap32(f.seqNum) && WordAt32(p, 28) == Wrap32(f.ack)
    ensures p[32] == 0x50 && p[33] == Byte(f.flags)
  {
    var ports, numbers := Be16(f.srcPort) + Be16(f.dstPort), Numbers(f);
    HoldsByte(p, 20, TcpFront(f), 12);
    HoldsByte(p, 20, TcpFront(f), 13);
    HoldsSplit(p, 20, numbers + [0x50] + [Byte(f.flags)], 34, Be16(65535));
    HoldsSplit(p, 20, numbers + [0x50], 33, [Byte(f.flags)]);
    HoldsSplit(p, 20, numbers, 32, [0x50]);
    HoldsSplit(p, 20, ports + Be32(f.seqNum), 28, Be32(f.ack));
    HoldsSplit(p, 20, ports, 24, Be32(f.seqNum));
    HoldsSplit(p, 20, Be16(f.srcPort), 22, Be16(f.dstPort));
    HoldsShort(p, 20, f.srcPort);
    HoldsShort(p, 22, f.dstPort);
    HoldsWord(p, 24, f.seqNum);
    HoldsWord(p, 28, f.ack);
  }

  /** Fields, each reduced to its width on the wire, with n bytes of payload behind two plain headers. */
  function Reduced(f: Fields, n: int): Segment {
    Segment(Signed32(f.srcIp), f.srcPort % 0x1_0000, Signed32(f.dstIp), f.dstPort % 0x1_0000,
            Wrap32(f.seqNum), Wrap32(f.ack), Byte(f.flags), 40, n)
  }

  /** Parsing a built packet gives its fields back, each reduced to its width, and its payload. */
  lemma PacketRoundTrip(f: Fields, payload: bytes)
    ensures var p := PacketBytes(f, payload);
            && ParseTcp(p) == Some(Reduced(f, |payload|))
            && p[40..] == payload
  {
    var p, c := PacketBytes(f, payload), TcpSum(f, payload);
    var ip, tcp := IpHeader(f, 40 + |payload|, IpSum(f, 40 + |payload|)), TcpSegment(f, c, payload);
    HoldsWhole(p);
    HoldsSplit(p, 0, ip, 20, tcp);
    IpParts(p, f, 40 + |payload|, IpSum(f, 40 + |payload|));
    SegmentParts(p, f, c, payload);
    SegmentIs(p, f);
    ParsePlain(p);
  }

  predicate IsPacket(p: bytes, f: Fields, payload: bytes) {
    p == PacketBytes(f, payload)
  }

  /** The round trip, in the terms a receiver uses. */
  lemma ParsedPacket(p: bytes, f: Fields, payload: bytes) returns (s: Segment)
    requires IsPacket(p, f, payload)
    ensures ParseTcp(p) == Some(s) && s.payloadStart <= |p| && p[s.payloadStart..] == payload
    ensures s == Reduced(f, |payload|)
  {
    PacketRoundTrip(f, payload);
    s := ParseTcp(p).value;
  }

  lemma SegmentParts(p: bytes, f: Fields, c: nat, payload: bytes)
    requires Holds(p, 20, TcpSegment(f, c, payload)) && |p| == 40 + |payload|
    ensures Holds(p, 20, TcpFront(f)) && p[40..] == payload
  {
    HoldsSplit(p, 20, TcpFront(f), 36, Be16(c) + (Be16(0) + payload));
    HoldsSplit(p, 36, Be16(c), 38, Be16(0) + payload);
    HoldsSplit(p, 38, Be16(0), 40, payload);
    assert p[40..] == p[40..40 + |payload|];
  }

  lemma ParsePlain(p: bytes)
    requires 40 <= |p| && p[0] == 0x45 && p[9] == 6
    ensures ParseTcp(p) == Some(SegmentAt(p, 20))
  {
    assert HeaderLength(0x45) == 20;
  }

  lemma SegmentIs(p: bytes, f: Fields)
    requires 40 <= |p| && Holds(p, 20, TcpFront(f))
    requires WordAt32(p, 12) == Wrap32(f.srcIp) && WordAt32(p, 16) == Wrap32(f.dstIp)
    ensures SegmentAt(p, 20) == Reduced(f, |p| - 40)
  {
    TcpParts(p, f);
    assert DataOffset(0x50) == 20;
    SignedWrap(f.srcIp);
    SignedWrap(f.dstIp);
  }

  lemma SignedWrap(n: int)
    ensures Signed32(Wrap32(n)) == Signed32(n)
  {
  }

  // ---- Packets with options, as hosts send them ----

  /** Option bytes: whole words, as many as a header length field can count. */
  predicate IsOptions(s: bytes) {
    |s| % 4 == 0 && |s| <= 40
  }

  /** The TCP header behind its numbers, options and payload; rest is window, checksum and urgent pointer. */
  function OptionedTail(f: Fields, rest: bytes, options: bytes, payload: bytes): bytes
    requires IsOptions(options)
  {
    [(0x50 + |options| / 4 * 16) as byte, Byte(f.flags)] + (rest + (options + payload))
  }

  /** An IPv4 packet with options in both headers; front is what stands before the protocol number. */
  function Optioned(f: Fields, front: bytes, checksum: int, ipOptions: bytes, rest: bytes, options: bytes,
                    payload: bytes): bytes
    requires IsOptions(ipOptions) && IsOptions(options)
  {
    var tail := OptionedTail(f, rest, options, payload);
    [(0x45 + |ipOptions| / 4) as byte]
    + (front + ([6] + (Be16(checksum) + (IpBack(f) + (ipOptions + (Numbers(f) + tail))))))
  }

  lemma NumbersAt(p: bytes, f: Fields, ihl: nat)
    requires Holds(p, ihl, Numbers(f))
    ensures LenAt(p, ihl) == f.srcPort % 0x1_0000 && LenAt(p, ihl + 2) == f.dstPort % 0x1_0000
    ensures WordAt32(p, ihl + 4) == Wrap32(f.seqNum) && WordAt32(p, ihl + 8) == Wrap32(f.ack)
  {
    var ports := Be16(f.srcPort) + Be16(f.dstPort);
    HoldsSplit(p, ihl, ports + Be32(f.seqNum), ihl + 8, Be32(f.ack));
    HoldsSplit(p, ihl, ports, ihl + 4, Be32(f.seqNum));
    HoldsSplit(p, ihl, Be16(f.srcPort), ihl + 2, Be16(f.dstPort));
    HoldsShort(p, ihl, f.srcPort);
    HoldsShort(p, ihl + 2, f.dstPort);
    HoldsWord(p, ihl + 4, f.seqNum);
    HoldsWord(p, ihl + 8, f.ack);
  }

  lemma TailAt(p: bytes, f: Fields, at: nat, rest: bytes, options: bytes, payload: bytes)
    requires IsOptions(options) && |rest| == 6 && Holds(p, at, OptionedTail(f, rest, options, payload))
    requires |p| == at + |OptionedTail(f, rest, options, payload)|
    ensures |p| == at + 8 + |options| + |payload|
    ensures DataOffset(p[at]) == 20 + |options| && p[at + 1] == Byte(f.flags)
    ensures p[at + 8 + |options|..] == payload
  {
    var head := [(0x50 + |options| / 4 * 16) as byte, Byte(f.flags)];
    HoldsSplit(p, at, head, at + 2, rest + (options + payload));
    HoldsSplit(p, at + 2, rest, at + 8, options + payload);
    HoldsSplit(p, at + 8, options, at + 8 + |options|, payload);
    HoldsByte(p, at, head, 0);
    HoldsByte(p, at, head, 1);
  }

  lemma FrontAt(p: bytes, f: Fields, front: bytes, checksum: int, ipOptions: bytes, more: bytes)
    requires IsOptions(ipOptions) && |front| == 8
    requires p == [(0x45 + |ipOptions| / 4) as byte]
                  + (front + ([6] + (Be16(checksum) + (IpBack(f) + (ipOptions + more)))))
    ensures 20 + |ipOptions| + |more| == |p| && Holds(p, 20 + |ipOptions|, more)
    ensures p[0] / 16 == 4 && HeaderLength(p[0]) == 20 + |ipOptions| && p[9] == 6
    ensures WordAt32(p, 12) == Wrap32(f.srcIp) && WordAt32(p, 16) == Wrap32(f.dstIp)
  {
    var first := [(0x45 + |ipOptions| / 4) as byte];
    HoldsWhole(p);
    HoldsSplit(p, 0, first, 1, front + ([6] + (Be16(checksum) + (IpBack(f) + (ipOptions + more)))));
    HoldsByte(p, 0, first, 0);
    HoldsSplit(p, 1, front, 9, [6] + (Be16(checksum) + (IpBack(f) + (ipOptions + more))));
    HoldsSplit(p, 9, [6], 10, Be16(checksum) + (IpBack(f) + (ipOptions + more)));
    HoldsByte(p, 9, [6], 0);
    HoldsSplit(p, 10, Be16(checksum), 12, IpBack(f) + (ipOptions + more));
    HoldsSplit(p, 12, IpBack(f), 20, ipOptions + more);
    HoldsSplit(p, 20, ipOptions, 20 + |ipOptions|, more);
    HoldsSplit(p, 12, Be32(f.srcIp), 16, Be32(f.dstIp));
    HoldsWord(p, 12, f.srcIp);
    HoldsWord(p, 16, f.dstIp);
  }

  /** The parser steps over the options of both headers. */
  lemma OptionsSkipped(f: Fields, front: bytes, checksum: int, ipOptions: bytes, rest: bytes, options: bytes,
                       payload: bytes)
    requires IsOptions(ipOptions) && IsOptions(options) && |front| == 8 && |rest| == 6
    ensures var p := Optioned(f, front, checksum, ipOptions, rest, options, payload);
            var start := 40 + |ipOptions| + |options|;
            && ParseTcp(p) == Some(Reduced(f, |payload|).(payloadStart := start))
            && start <= |p| && p[start..] == payload
  {
    var p, ihl := Optioned(f, front, checksum, ipOptions, rest, options, payload), 20 + |ipOptions|;
    var tail := OptionedTail(f, rest, options, payload);
    var at := ihl + 12;
    FrontAt(p, f, front, checksum, ipOptions, Numbers(f) + tail);
    HoldsSplit(p, ihl, Numbers(f), at, tail);
    NumbersAt(p, f, ihl);
    TailAt(p, f, at, rest, options, payload);
    ParsedFrom(p, f, ihl, at + 8 + |options|);
  }

  lemma ParsedFrom(p: bytes, f: Fields, ihl: nat, start: nat)
    requires 20 <= ihl && ihl + 20 <= start <= |p|
    requires p[0] / 16 == 4 && HeaderLength(p[0]) == ihl && p[9] == 6
    requires WordAt32(p, 12) == Wrap32(f.srcIp) && WordAt32(p, 16) == Wrap32(f.dstIp)
    requires LenAt(p, ihl) == f.srcPort % 0x1_0000 && LenAt(p, ihl + 2) == f.dstPort % 0x1_0000
    requires WordAt32(p, ihl + 4) == Wrap32(f.seqNum) && WordAt32(p, ihl + 8) == Wrap32(f.ack)
    requires ihl + DataOffset(p[ihl + 12]) == start && p[ihl + 13] == Byte(f.flags)
    ensures ParseTcp(p) == Some(Reduced(f, |p| - start).(payloadStart := start))
  {
    assert ParseTcp(p) == Some(SegmentAt(p, ihl)) by {
      assert |p| >= ihl + 20;
    }
    SegmentFrom(p, f, ihl, start);
  }

  lemma SegmentFrom(p: bytes, f: Fields, ihl: nat, start: nat)
    requires 20 <= ihl && ihl + 20 <= start <= |p|
    requires WordAt32(p, 12) == Wrap32(f.srcIp) && WordAt32(p, 16) == Wrap32(f.dstIp)
    requires LenAt(p, ihl) == f.srcPort % 0x1_0000 && LenAt(p, ihl + 2) == f.dstPort % 0x1_0000
    requires WordAt32(p, ihl + 4) == Wrap32(f.seqNum) && WordAt32(p, ihl + 8) == Wrap32(f.ack)
    requires ihl + DataOffset(p[ihl + 12]) == start && p[ihl + 13] == Byte(f.flags)
    ensures SegmentAt(p, ihl) == Reduced(f, |p| - start).(payloadStart := start)
  {
    SignedWrap(f.srcIp);
    SignedWrap(f.dstIp);
  }

  // ---- The destination as text (handleSyn) ----

  /** ByteArray(4) { i -> (dstIp shr (24 - i * 8)).toByte() }, on a signed Int. */
  function Octets(ip: int): bytes {
    [Byte(ip / 0x100_0000), Byte(ip / 0x1_0000), Byte(ip / 0x100), Byte(ip)]
  }

  /** The octets of a parsed destination are the four bytes at offset 16 of the packet. */
  lemma OctetsOfParsed(pkt: bytes)
    requires ParseTcp(pkt).Some?
    ensures Octets(ParseTcp(pkt).value.dstIp) == pkt[16..20]
  {
    var u := WordAt32(pkt, 16);
    SignedOctets(pkt[16] as nat, pkt[17] as nat, pkt[18] as nat, pkt[19] as nat);
  }

  lemma SignedOctets(a: nat, b: nat, c: nat, d: nat)
    requires a < 256 && b < 256 && c < 256 && d < 256
    ensures Octets(Signed32(0x1_0000 * (256 * a + b) + (256 * c + d))) == [a as byte, b as byte, c as byte, d as byte]
  {
    var ip := Signed32(0x1_0000 * (256 * a + b) + (256 * c + d));
    var top := if a < 128 then a else a - 256;
    SignedTop(a, b, c, d, top);
    Shifted(top, b, c, d, ip);
    LowByte(if a < 128 then 0 else -1, a, top);
    LowByte(top, b, ip / 0x1_0000);
    LowByte(256 * top + b, c, ip / 0x100);
    LowByte(0x1_0000 * top + 256 * b + c, d, ip);
  }

  lemma SignedTop(a: nat, b: nat, c: nat, d: nat, top: int)
    requires a < 256 && b < 256 && c < 256 && d < 256 && top == if a < 128 then a else a - 256
    ensures Signed32(0x1_0000 * (256 * a + b) + (256 * c + d)) == 0x100_0000 * top + 0x1_0000 * b + 256 * c + d
  {
  }

  lemma Shifted(top: int, b: nat, c: nat, d: nat, ip: int)
    requires b < 256 && c < 256 && d < 256 && ip == 0x100_0000 * top + 0x1_0000 * b + 256 * c + d
    ensures ip / 0x100_0000 == top && ip / 0x1_0000 == 256 * top + b && ip / 0x100 == 0x1_0000 * top + 256 * b + c
  {
  }

  lemma LowByte(high: int, low: nat, n: int)
    requires low < 256 && n == 256 * high + low
    ensures Byte(n) == low as byte
  {
  }
}
