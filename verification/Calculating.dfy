/** The headers that a stack puts on a segment (stacks/port_tcp.go), byte by byte, and that both of their checksums
    verify at a receiver that sums what RFC 791 and RFC 9293 say. */
module Calculating {
  import opened SeqNum
  import opened Segments
  import opened Rings
  import opened Checksum
  import opened Headers
  import opened Wire

  /** The value of a flag set on the wire. */
  lemma {:induction false} FlagBits(f: Flags)
    ensures BitsOfFlags(f) == (if f.fin then 1 else 0) + (if f.syn then 2 else 0) + (if f.rst then 4 else 0)
                              + (if f.psh then 8 else 0) + (if f.ack then 16 else 0) + (if f.urg then 32 else 0)
                              + (if f.ece then 64 else 0) + (if f.cwr then 128 else 0) + (if f.ns then 256 else 0)
  {
    var s := [f.fin, f.syn, f.rst, f.psh, f.ack, f.urg, f.ece, f.cwr, f.ns];
    NumberOfNine(s);
  }

  lemma {:induction false} NumberOfNine(s: seq<bool>)
    requires |s| == 9
    ensures Number(s) == Number(s[..4]) + 16 * Number(s[4..])
    ensures Number(s[..4]) == (if s[0] then 1 else 0) + (if s[1] then 2 else 0) + (if s[2] then 4 else 0)
                              + (if s[3] then 8 else 0)
    ensures Number(s[4..]) == (if s[4] then 1 else 0) + (if s[5] then 2 else 0) + (if s[6] then 4 else 0)
                              + (if s[7] then 8 else 0) + (if s[8] then 16 else 0)
  {
    NumberSplit(s, 4);
    FourDigits(s[..4]);
    FourDigits(s[4..8]);
    NumberSplit(s[4..], 4);
    assert s[4..][..4] == s[4..8] && s[4..][4..] == [s[8]];
    assert Number([s[8]]) == (if s[8] then 1 else 0) by {
      assert [s[8]][1..] == [];
    }
  }

  lemma {:induction false} FourDigits(s: seq<bool>)
    requires |s| == 4
    ensures Number(s) == (if s[0] then 1 else 0) + (if s[1] then 2 else 0) + (if s[2] then 4 else 0)
                         + (if s[3] then 8 else 0)
  {
    assert s[1..][1..] == s[2..] && s[2..][1..] == s[3..] && s[3..][1..] == [];
    assert Number(s[3..]) == if s[3] then 1 else 0;
    assert Number(s[2..]) == (if s[2] then 1 else 0) + 2 * Number(s[3..]);
    assert Number(s[1..]) == (if s[1] then 1 else 0) + 2 * Number(s[2..]);
  }

  lemma {:induction false} NumberSplit(s: seq<bool>, k: nat)
    requires k <= |s|
    ensures Number(s) == Number(s[..k]) + Pow2(k) * Number(s[k..])
  {
    if k == 0 {
      assert s[..0] == [] && s[0..] == s;
    } else {
      NumberSplit(s[1..], k - 1);
      assert s[..k][1..] == s[1..][..k - 1] && s[1..][k - 1..] == s[k..];
      assert Number(s[..k]) == (if s[0] then 1 else 0) + 2 * Number(s[1..][..k - 1]);
      Distribute(Pow2(k - 1), Number(s[k..]));
    }
  }

  lemma Distribute(p: nat, n: nat)
    ensures 2 * (p * n) == (2 * p) * n
  {
  }

  // ---------------------------------------------------------------------------------------------
  // The frame

  /** Two bytes of a frame as a number. */
  function WordAt(f: seq<byte>, i: nat): nat
    requires i + 2 <= |f|
  {
    (f[i] as int) * 256 + f[i + 1] as int
  }

  function LongAt(f: seq<byte>, i: nat): nat
    requires i + 4 <= |f|
  {
    (f[i] as int) * 0x100_0000 + (f[i + 1] as int) * 0x1_0000 + (f[i + 2] as int) * 256 + f[i + 3] as int
  }

  /** The link and network part of a calculated frame: who it is from and for, an IPv4 header of five words without
      options or fragments, sixty-four hops, TCP. */
  lemma {:induction false} NetworkLayout(h: PacketHeaders, seg: Segment, payload: seq<byte>, id: u16)
    requires seg.dataLen == |payload| <= 65495
    ensures var f := HeaderBytes(Calculated(h, seg, payload, id));
            && f[0..6] == h.eth.dst && f[6..12] == h.eth.src && f[12] == 8 && f[13] == 0
            && f[14] == 0x45 && f[15] == h.ip.tos && WordAt(f, 16) == 40 + |payload| && WordAt(f, 18) == id
            && f[20] == 0 && f[21] == 0 && f[22] == 64 && f[23] == 6
            && f[26..30] == h.ip.src && f[30..34] == h.ip.dst
  {
    CalculatedIp(h, seg, payload, id);
    FrameHead(Calculated(h, seg, payload, id));
  }

  /** Where the Ethernet and IPv4 headers lie in a frame. */
  lemma {:induction false} FrameHead(c: PacketHeaders)
    ensures var f := HeaderBytes(c);
            && f[0..6] == c.eth.dst && f[6..12] == c.eth.src && WordAt(f, 12) == c.eth.etherType
            && f[14] == 0x40 + c.ip.verIhl % 16 && f[15] == c.ip.tos
            && WordAt(f, 16) == c.ip.totalLength && WordAt(f, 18) == c.ip.id && WordAt(f, 20) == c.ip.flags
            && f[22] == c.ip.ttl && f[23] == c.ip.protocol
            && f[26..30] == c.ip.src && f[30..34] == c.ip.dst && f[34..54] == TcpBytes(c.tcp)
  {
    EthLayout(c.eth);
    IpLayout(c.ip);
    Blocks(EthBytes(c.eth), IpBytes(c.ip), TcpBytes(c.tcp));
    HeadOfFrame(HeaderBytes(c), EthBytes(c.eth), IpBytes(c.ip));
  }

  lemma HeadOfFrame(f: seq<byte>, e: seq<byte>, i: seq<byte>)
    requires |f| == 54 && |e| == 14 && |i| == 20
    requires forall k :: 0 <= k < 14 ==> f[k] == e[k]
    requires forall k :: 0 <= k < 20 ==> f[14 + k] == i[k]
    ensures WordAt(f, 12) == WordAt(e, 12) && f[14] == i[0] && f[15] == i[1] && WordAt(f, 16) == WordAt(i, 2)
    ensures WordAt(f, 18) == WordAt(i, 4) && WordAt(f, 20) == WordAt(i, 6) && f[22] == i[8] && f[23] == i[9]
  {
    assert f[14] == f[14 + 0] && f[15] == f[14 + 1] && f[16] == f[14 + 2] && f[17] == f[14 + 3];
    assert f[18] == f[14 + 4] && f[19] == f[14 + 5] && f[20] == f[14 + 6] && f[21] == f[14 + 7];
    assert f[22] == f[14 + 8] && f[23] == f[14 + 9];
  }

  lemma {:induction false} CalculatedIp(h: PacketHeaders, seg: Segment, payload: seq<byte>, id: u16)
    requires seg.dataLen == |payload|
    ensures var c := Calculated(h, seg, payload, id);
            && c.eth == h.eth.(etherType := 0x800)
            && c.ip == IPv4Header(5, h.ip.tos, (40 + |payload|) % 0x1_0000, id, 0, 64, 6, c.ip.checksum,
                                  h.ip.src, h.ip.dst)
  {
  }

  lemma {:induction false} Blocks(e: seq<byte>, i: seq<byte>, t: seq<byte>)
    requires |e| == 14 && |i| == 20 && |t| == 20
    ensures var f := e + i + t;
            && f[0..6] == e[0..6] && f[6..12] == e[6..12] && (forall k :: 0 <= k < 14 ==> f[k] == e[k])
            && f[26..30] == i[12..16] && f[30..34] == i[16..20] && (forall k :: 0 <= k < 20 ==> f[14 + k] == i[k])
            && (forall k :: 0 <= k < 20 ==> f[34 + k] == t[k])
            && f[34..54] == t
  {
  }

  lemma {:induction false} EthLayout(h: EthHeader)
    ensures var b := EthBytes(h);
            b[0..6] == h.dst && b[6..12] == h.src && WordAt(b, 12) == h.etherType
  {
  }

  lemma {:induction false} IpLayout(h: IPv4Header)
    ensures var b := IpBytes(h);
            && b[0] == 0x40 + h.verIhl % 16 && b[1] == h.tos && WordAt(b, 2) == h.totalLength && WordAt(b, 4) == h.id
            && WordAt(b, 6) == h.flags && b[8] == h.ttl && b[9] == h.protocol && WordAt(b, 10) == h.checksum
            && b[12..16] == h.src && b[16..20] == h.dst
  {
  }

  lemma {:induction false} TcpLayout(h: TCPHeader)
    ensures var b := TcpBytes(h);
            && WordAt(b, 0) == h.srcPort && WordAt(b, 2) == h.dstPort && LongAt(b, 4) == h.seqno
            && LongAt(b, 8) == h.ackno && WordAt(b, 12) == h.offsetAndFlags && WordAt(b, 14) == h.window
            && WordAt(b, 16) == h.checksum && WordAt(b, 18) == h.urgentPtr
  {
    var b := TcpBytes(h);
    assert b[4..8] == Bytes32(h.seqno) && b[8..12] == Bytes32(h.ackno);
    LongBytes(b, 4, h.seqno);
    LongBytes(b, 8, h.ackno);
  }

  lemma LongBytes(b: seq<byte>, i: nat, v: u32)
    requires i + 4 <= |b| && b[i..i + 4] == Bytes32(v)
    ensures LongAt(b, i) == v
  {
    assert b[i] == b[i..i + 4][0] && b[i + 1] == b[i..i + 4][1] && b[i + 2] == b[i..i + 4][2];
    assert b[i + 3] == b[i..i + 4][3];
  }

  /** The transport part: the ports, the numbers, five words of header, the flags each in its bit, the window. */
  lemma {:induction false} TransportLayout(h: PacketHeaders, seg: Segment, payload: seq<byte>, id: u16)
    requires seg.dataLen == |payload|
    ensures var f := HeaderBytes(Calculated(h, seg, payload, id));
            && WordAt(f, 34) == h.tcp.srcPort && WordAt(f, 36) == h.tcp.dstPort
            && LongAt(f, 38) == seg.seqno && LongAt(f, 42) == seg.ackno
            && WordAt(f, 46) == 0x5000 + BitsOfFlags(seg.flags)
            && WordAt(f, 48) == seg.wnd % 0x1_0000 && f[52] == 0 && f[53] == 0
  {
    var c := Calculated(h, seg, payload, id);
    Blocks(EthBytes(c.eth), IpBytes(c.ip), TcpBytes(c.tcp));
    TcpLayout(c.tcp);
    CalculatedTcp(h, seg, payload, id);
  }

  lemma {:induction false} CalculatedTcp(h: PacketHeaders, seg: Segment, payload: seq<byte>, id: u16)
    requires seg.dataLen == |payload|
    ensures var c := Calculated(h, seg, payload, id);
            c.tcp == TCPHeader(h.tcp.srcPort, h.tcp.dstPort, seg.seqno, seg.ackno, 0x5000 + BitsOfFlags(seg.flags),
                               seg.wnd % 0x1_0000, c.tcp.checksum, 0)
  {
    LowField(0, BitsOfFlags(seg.flags));
  }

  // ---------------------------------------------------------------------------------------------
  // The checksums

  /** The IPv4 header of every calculated segment sums to zero. */
  lemma {:induction false} NetworkVerifies(h: PacketHeaders, seg: Segment, payload: seq<byte>, id: u16)
    requires seg.dataLen == |payload|
    ensures Rfc1071(HeaderBytes(Calculated(h, seg, payload, id))[14..34]) == 0
  {
    var c := Calculated(h, seg, payload, id);
    var ip0 := IPv4Header(5, h.ip.tos, (40 + |payload|) % 0x1_0000, id, 0, 64, 6, h.ip.checksum, h.ip.src, h.ip.dst);
    IpHeaderVerifies(ip0);
    assert c.ip == ip0.(checksum := IpChecksum(ip0));
    assert HeaderBytes(c)[14..34] == IpBytes(c.ip);
  }

  /** Its TCP segment, with the addresses, the protocol and the length before it, sums to zero. */
  lemma {:induction false} TransportVerifies(h: PacketHeaders, seg: Segment, payload: seq<byte>, id: u16)
    requires seg.dataLen == |payload| <= 65495
    ensures var f := HeaderBytes(Calculated(h, seg, payload, id));
            Rfc1071(f[26..34] + [0, 6] + Bytes16(20 + |payload|) + f[34..54] + payload) == 0
  {
    var c := Promises(h, seg, payload, id);
    FrameHead(c);
    SegmentVerifies(c, HeaderBytes(c), payload);
  }

  lemma {:induction false} Promises(h: PacketHeaders, seg: Segment, payload: seq<byte>, id: u16)
    returns (c: PacketHeaders)
    requires seg.dataLen == |payload| <= 65495
    ensures c == Calculated(h, seg, payload, id)
    ensures c.ip.totalLength == 40 + |payload| && c.ip.verIhl == 5 && c.ip.protocol == 6
    ensures c.tcp.urgentPtr == 0 && c.tcp.checksum == TcpChecksum(c.tcp.(checksum := 0), c.ip, [], payload)
  {
    c := Calculated(h, seg, payload, id);
    CalculatedTransport(h, seg, payload, id);
    CalculatedIp(h, seg, payload, id);
    CalculatedTcp(h, seg, payload, id);
  }

  lemma {:induction false} SegmentVerifies(c: PacketHeaders, f: seq<byte>, payload: seq<byte>)
    requires |payload| <= 65495 && c.ip.totalLength == 40 + |payload| && c.ip.verIhl == 5 && c.ip.protocol == 6
    requires c.tcp.urgentPtr == 0 && c.tcp.checksum == TcpChecksum(c.tcp.(checksum := 0), c.ip, [], payload)
    requires |f| == 54 && f[26..30] == c.ip.src && f[30..34] == c.ip.dst && f[34..54] == TcpBytes(c.tcp)
    ensures Rfc1071(f[26..34] + [0, 6] + Bytes16(20 + |payload|) + f[34..54] + payload) == 0
  {
    FieldVerifies(c.tcp, c.ip, payload);
    assert TcpLength(c.ip) == 20 + |payload|;
    PseudoParts(f, c.ip.src, c.ip.dst, TcpBytes(c.tcp), Bytes16(20 + |payload|), payload);
  }

  lemma {:induction false} PseudoParts(f: seq<byte>, src: seq<byte>, dst: seq<byte>, tcp: seq<byte>,
                                       length: seq<byte>, payload: seq<byte>)
    requires |f| == 54 && f[26..30] == src && f[30..34] == dst && f[34..54] == tcp
    ensures src + dst + [0, 6] + length + tcp + [] + payload == f[26..34] + [0, 6] + length + f[34..54] + payload
  {
    assert f[26..34] == f[26..30] + f[30..34];
  }

  lemma {:induction false} FieldVerifies(tcp: TCPHeader, ip: IPv4Header, payload: seq<byte>)
    requires ip.protocol == 6 && tcp.urgentPtr == 0 && tcp.checksum == TcpChecksum(tcp.(checksum := 0), ip, [], payload)
    ensures Rfc1071(ip.src + ip.dst + [0, 6] + Bytes16(TcpLength(ip)) + TcpBytes(tcp) + [] + payload) == 0
  {
    var tcp0 := tcp.(checksum := 0);
    DirectIsStandard(tcp0, ip, [], payload);
    var a := ip.src + ip.dst + [0, 6] + Bytes16(TcpLength(ip)) + TcpFields(tcp);
    var s := a + Bytes16(0) + ([0, 0] + payload);
    assert StandardBytes(tcp0, ip, [], payload) == s;
    assert s == WithWord(s, 28, 0);
    var t := ip.src + ip.dst + [0, 6] + Bytes16(TcpLength(ip)) + TcpBytes(tcp) + [] + payload;
    assert t == a + Bytes16(tcp.checksum) + ([0, 0] + payload);
    assert t == WithWord(s, 28, tcp.checksum);
    SelfVerifies(s, 28, tcp.checksum);
  }
}
