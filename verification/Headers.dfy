/** Ethernet, IPv4 and TCP headers without options: their byte layout, the TCP flag and offset field, and
    their checksums (eth/headers.go). */
module Headers {
  import opened SeqNum
  import opened Segments
  import opened Rings
  import opened Checksum

  type Mac = s: seq<byte> | |s| == 6 witness [0, 0, 0, 0, 0, 0]
  type Addr = s: seq<byte> | |s| == 4 witness [0, 0, 0, 0]

  const ETHERTYPE_IPV4: u16 := 0x0800
  const ETHERTYPE_ARP: u16 := 0x0806
  const PROTOCOL_TCP: byte := 6
  const PROTOCOL_UDP: byte := 17
  const SIZE_ETHERNET: nat := 14
  const SIZE_IPV4: nat := 20
  const SIZE_TCP: nat := 20

  datatype EthHeader = EthHeader(dst: Mac, src: Mac, etherType: u16)

  datatype IPv4Header = IPv4Header(verIhl: byte, tos: byte, totalLength: u16, id: u16, flags: u16, ttl: byte,
                                   protocol: byte, checksum: u16, src: Addr, dst: Addr)
  {
    /** The header length in 32-bit words. */
    function Ihl(): byte {
      verIhl % 16
    }

    function Version(): byte {
      verIhl / 16
    }
  }

  datatype TCPHeader = TCPHeader(srcPort: u16, dstPort: u16, seqno: Value, ackno: Value, offsetAndFlags: u16,
                                 window: u16, checksum: u16, urgentPtr: u16)
  {
    function Offset(): byte {
      offsetAndFlags / 512 / 8
    }

    function OffsetInBytes(): byte {
      Offset() * 4
    }

    function GetFlags(): Flags {
      FlagsFromBits(offsetAndFlags % 512)
    }

    function SetFlags(f: Flags): TCPHeader {
      this.(offsetAndFlags := offsetAndFlags / 512 * 512 + BitsOfFlags(f))
    }

    /** Clears the reserved bits too. */
    function SetOffset(words: byte): TCPHeader
      requires words <= 15
    {
      this.(offsetAndFlags := words * 8 * 512 + offsetAndFlags % 512)
    }

    function Segment(payloadSize: Size): Segment {
      Segments.Segment.Segment(seqno, ackno, payloadSize, window, GetFlags())
    }
  }

  // ---------------------------------------------------------------------------------------------
  // The flag bits, from FIN in bit 0 to NS in bit 8

  /** The number whose binary digits are s, the lowest first. */
  function Number(s: seq<bool>): nat {
    if s == [] then 0 else (if s[0] then 1 else 0) + 2 * Number(s[1..])
  }

  function Digits(n: nat, k: nat): (s: seq<bool>)
    ensures |s| == k
  {
    if k == 0 then [] else [n % 2 == 1] + Digits(n / 2, k - 1)
  }

  lemma {:induction false} DigitsRoundTrip(s: seq<bool>)
    ensures Digits(Number(s), |s|) == s
  {
    if s != [] {
      DigitsRoundTrip(s[1..]);
    }
  }

  function Pow2(k: nat): nat {
    if k == 0 then 1 else 2 * Pow2(k - 1)
  }

  lemma {:induction false} NumberBound(s: seq<bool>)
    ensures Number(s) < Pow2(|s|)
  {
    if s != [] {
      NumberBound(s[1..]);
    }
  }

  function BitsOfFlags(f: Flags): (n: u16)
    ensures n < 512
  {
    var s := [f.fin, f.syn, f.rst, f.psh, f.ack, f.urg, f.ece, f.cwr, f.ns];
    NumberBound(s);
    assert Pow2(9) == 512;
    Number(s)
  }

  function FlagsFromBits(n: u16): Flags {
    var s := Digits(n, 9);
    Flags(s[0], s[1], s[2], s[3], s[4], s[5], s[6], s[7], s[8])
  }

  lemma {:induction false} FlagsRoundTrip(f: Flags)
    ensures FlagsFromBits(BitsOfFlags(f)) == f
  {
    DigitsRoundTrip([f.fin, f.syn, f.rst, f.psh, f.ack, f.urg, f.ece, f.cwr, f.ns]);
  }

  lemma LowField(hi: nat, lo: nat)
    requires lo < 512
    ensures (hi * 512 + lo) / 512 == hi && (hi * 512 + lo) % 512 == lo
  {
  }

  /** The offset and the flags share a field and do not disturb each other. */
  lemma {:induction false} OffsetAndFlagsIndependent(h: TCPHeader, f: Flags, words: byte)
    requires words <= 15
    ensures h.SetFlags(f).SetOffset(words).GetFlags() == f && h.SetFlags(f).SetOffset(words).Offset() == words
    ensures h.SetOffset(words).SetFlags(f) == h.SetFlags(f).SetOffset(words)
  {
    var bits := BitsOfFlags(f);
    FlagsRoundTrip(f);
    LowField(h.offsetAndFlags / 512, bits);
    LowField(words * 8, bits);
    LowField(words * 8, h.offsetAndFlags % 512);
  }

  // ---------------------------------------------------------------------------------------------
  // Layout

  function EthBytes(h: EthHeader): (b: seq<byte>)
    ensures |b| == SIZE_ETHERNET
  {
    h.dst + h.src + Bytes16(h.etherType)
  }

  function DecodeEth(b: seq<byte>): EthHeader
    requires |b| >= SIZE_ETHERNET
  {
    EthHeader(b[0..6], b[6..12], At16(b, 12))
  }

  /** The version is put as 4 whatever the header says. */
  function IpBytes(h: IPv4Header): (b: seq<byte>)
    ensures |b| == SIZE_IPV4
  {
    [64 + h.Ihl(), h.tos, High(h.totalLength), Low(h.totalLength), High(h.id), Low(h.id), High(h.flags), Low(h.flags),
     h.ttl, h.protocol, High(h.checksum), Low(h.checksum)] + h.src + h.dst
  }

  function DecodeIp(b: seq<byte>): IPv4Header
    requires |b| >= SIZE_IPV4
  {
    IPv4Header(b[0], b[1], At16(b, 2), At16(b, 4), At16(b, 6), b[8], b[9], At16(b, 10), b[12..16], b[16..20])
  }

  function TcpBytes(h: TCPHeader): (b: seq<byte>)
    ensures |b| == SIZE_TCP
  {
    Bytes16(h.srcPort) + Bytes16(h.dstPort) + Bytes32(h.seqno) + Bytes32(h.ackno)
    + Bytes16(h.offsetAndFlags) + Bytes16(h.window) + Bytes16(h.checksum) + Bytes16(h.urgentPtr)
  }

  function DecodeTcp(b: seq<byte>): TCPHeader
    requires |b| >= SIZE_TCP
  {
    TCPHeader(At16(b, 0), At16(b, 2), At32(b, 4), At32(b, 8), At16(b, 12), At16(b, 14), At16(b, 16), At16(b, 18))
  }

  lemma {:induction false} EthRoundTrip(h: EthHeader, rest: seq<byte>)
    ensures DecodeEth(EthBytes(h) + rest) == h
  {
    var b := EthBytes(h) + rest;
    assert b[0..6] == h.dst && b[6..12] == h.src;
    assert b[12] == High(h.etherType) && b[13] == Low(h.etherType);
    WordOfBytes(h.etherType);
  }

  lemma {:induction false} IpRoundTrip(h: IPv4Header, rest: seq<byte>)
    ensures DecodeIp(IpBytes(h) + rest) == h.(verIhl := 64 + h.Ihl())
  {
    var b := IpBytes(h) + rest;
    assert b[12..16] == h.src && b[16..20] == h.dst;
    WordOfBytes(h.totalLength);
    WordOfBytes(h.id);
    WordOfBytes(h.flags);
    WordOfBytes(h.checksum);
  }

  lemma {:induction false} At32OfBytes(b: seq<byte>, i: nat, v: u32)
    requires i + 4 <= |b| && b[i..i + 4] == Bytes32(v)
    ensures At32(b, i) == v
  {
    assert b[i] == Bytes32(v)[0] && b[i + 1] == Bytes32(v)[1] && b[i + 2] == Bytes32(v)[2] && b[i + 3] == Bytes32(v)[3];
    WordOfBytes(v / 0x1_0000);
    WordOfBytes(v % 0x1_0000);
  }

  lemma {:induction false} At16OfBytes(b: seq<byte>, i: nat, v: u16)
    requires i + 2 <= |b| && b[i..i + 2] == Bytes16(v)
    ensures At16(b, i) == v
  {
    assert b[i] == b[i..i + 2][0] && b[i + 1] == b[i..i + 2][1];
    WordOfBytes(v);
  }

  lemma {:induction false} TcpRoundTrip(h: TCPHeader, rest: seq<byte>)
    ensures DecodeTcp(TcpBytes(h) + rest) == h
  {
    var b := TcpBytes(h) + rest;
    assert b[0..2] == Bytes16(h.srcPort) && b[2..4] == Bytes16(h.dstPort);
    assert b[4..8] == Bytes32(h.seqno) && b[8..12] == Bytes32(h.ackno);
    assert b[12..14] == Bytes16(h.offsetAndFlags) && b[14..16] == Bytes16(h.window);
    assert b[16..18] == Bytes16(h.checksum) && b[18..20] == Bytes16(h.urgentPtr);
    At16OfBytes(b, 0, h.srcPort);
    At16OfBytes(b, 2, h.dstPort);
    At32OfBytes(b, 4, h.seqno);
    At32OfBytes(b, 8, h.ackno);
    At16OfBytes(b, 12, h.offsetAndFlags);
    At16OfBytes(b, 14, h.window);
    At16OfBytes(b, 16, h.checksum);
    At16OfBytes(b, 18, h.urgentPtr);
  }

  // ---------------------------------------------------------------------------------------------
  // The IPv4 header checksum

  function IpChecksum(h: IPv4Header): u16 {
    Rfc1071(IpBytes(h.(checksum := 0)))
  }

  lemma {:induction false} IpBytesWithChecksum(h: IPv4Header, x: u16)
    ensures IpBytes(h.(checksum := x)) == WithWord(IpBytes(h), 10, x)
  {
    var b := IpBytes(h);
    var b' := IpBytes(h.(checksum := x));
    assert b'[..10] == b[..10] && b'[10..12] == Bytes16(x) && b'[12..] == b[12..];
    assert b' == b'[..10] + b'[10..12] + b'[12..];
  }

  /** A header that carries its own checksum sums to zero on verification. */
  lemma {:induction false} IpHeaderVerifies(h: IPv4Header)
    ensures Rfc1071(IpBytes(h.(checksum := IpChecksum(h)))) == 0
  {
    IpBytesWithChecksum(h, IpChecksum(h));
    IpBytesWithChecksum(h, 0);
    SelfVerifies(IpBytes(h), 10, IpChecksum(h));
  }

  method CalculateIpChecksum(h: IPv4Header) returns (r: u16)
    ensures r == IpChecksum(h)
  {
    var crc := new CRC791();
    IpBytesWithChecksum(h, 0);
    var n := crc.Write(IpBytes(h)[..10] + [0, 0] + IpBytes(h)[12..]);
    assert crc.fed == IpBytes(h.(checksum := 0));
    r := crc.Sum16();
  }

  // ---------------------------------------------------------------------------------------------
  // The TCP checksum

  /** The TCP length the pseudo-header carries, in 16-bit arithmetic. */
  function TcpLength(ip: IPv4Header): u16 {
    (ip.totalLength - ip.Ihl() * 4) % 0x1_0000
  }

  /** Ports, numbers, offset, flags and window. */
  function TcpFields(h: TCPHeader): (b: seq<byte>)
    ensures |b| == 16
  {
    Bytes16(h.srcPort) + Bytes16(h.dstPort) + Bytes32(h.seqno) + Bytes32(h.ackno)
    + Bytes16(h.offsetAndFlags) + Bytes16(h.window)
  }

  /** What the direct method feeds to the sum. */
  function DirectBytes(h: TCPHeader, ip: IPv4Header, options: seq<byte>, payload: seq<byte>): seq<byte> {
    ip.src + ip.dst + Bytes16(TcpLength(ip)) + Bytes16(ip.protocol) + TcpFields(h) + options + payload
  }

  /** What section 3.1 of RFC 9293 sums: the pseudo-header, the header with a zero checksum field, options and data. */
  function StandardBytes(h: TCPHeader, ip: IPv4Header, options: seq<byte>, payload: seq<byte>): seq<byte> {
    ip.src + ip.dst + [0, ip.protocol] + Bytes16(TcpLength(ip)) + TcpBytes(h.(checksum := 0)) + options + payload
  }

  function TcpChecksum(h: TCPHeader, ip: IPv4Header, options: seq<byte>, payload: seq<byte>): u16 {
    Rfc1071(DirectBytes(h, ip, options, payload))
  }

  lemma {:induction false} WordSum16(v: u16, rest: seq<byte>)
    ensures WordSum(Bytes16(v) + rest) == v + WordSum(rest)
  {
    WordSumConcat(Bytes16(v), rest);
    WordOfBytes(v);
    assert Bytes16(v)[2..] == [];
  }

  /** The sum of an even prefix, two numbers and an even stretch of fields before a tail. */
  lemma {:induction false} SumOfPieces(a: seq<byte>, x: u16, y: u16, fields: seq<byte>, tail: seq<byte>)
    requires |a| % 2 == 0 && |fields| % 2 == 0
    ensures WordSum(a + (Bytes16(x) + (Bytes16(y) + (fields + tail))))
            == WordSum(a) + x + y + WordSum(fields) + WordSum(tail)
  {
    var t2 := fields + tail;
    var t1 := Bytes16(y) + t2;
    WordSumConcat(fields, tail);
    WordSum16(y, t2);
    WordSum16(x, t1);
    WordSumConcat(a, Bytes16(x) + t1);
  }

  lemma Regroup(a: seq<byte>, b: seq<byte>, c: seq<byte>, d: seq<byte>, e: seq<byte>, f: seq<byte>)
    ensures a + b + c + d + e + f == a + (b + (c + (d + (e + f))))
  {
  }

  lemma {:induction false} DirectSum(h: TCPHeader, ip: IPv4Header, options: seq<byte>, payload: seq<byte>)
    ensures WordSum(DirectBytes(h, ip, options, payload))
            == WordSum(ip.src + ip.dst) + TcpLength(ip) + ip.protocol + WordSum(TcpFields(h))
               + WordSum(options + payload)
  {
    Regroup(ip.src + ip.dst, Bytes16(TcpLength(ip)), Bytes16(ip.protocol), TcpFields(h), options, payload);
    SumOfPieces(ip.src + ip.dst, TcpLength(ip), ip.protocol, TcpFields(h), options + payload);
  }

  lemma {:induction false} HeaderSum(h: TCPHeader)
    requires h.checksum == 0
    ensures WordSum(TcpBytes(h)) == WordSum(TcpFields(h)) + h.urgentPtr
  {
    var a, c := TcpFields(h), Bytes16(h.urgentPtr);
    Concat3(a, Bytes16(0), c);
    WordSumConcat(a, Bytes16(0) + c);
    WordSum16(0, c);
    WordSum16(h.urgentPtr, []);
    assert c + [] == c;
  }

  lemma SmallBytes16(v: byte)
    ensures Bytes16(v) == [0, v]
  {
  }

  lemma {:induction false} StandardSum(h: TCPHeader, ip: IPv4Header, options: seq<byte>, payload: seq<byte>)
    ensures WordSum(StandardBytes(h, ip, options, payload))
            == WordSum(ip.src + ip.dst) + ip.protocol + TcpLength(ip) + WordSum(TcpFields(h)) + h.urgentPtr
               + WordSum(options + payload)
  {
    var h0 := h.(checksum := 0);
    HeaderSum(h0);
    SmallBytes16(ip.protocol);
    Regroup(ip.src + ip.dst, Bytes16(ip.protocol), Bytes16(TcpLength(ip)), TcpBytes(h0), options, payload);
    SumOfPieces(ip.src + ip.dst, ip.protocol, TcpLength(ip), TcpBytes(h0), options + payload);
  }

  /** The direct method leaves the urgent pointer out. It gives the standard checksum exactly when that
      does not matter. */
  lemma {:induction false} DirectIsStandard(h: TCPHeader, ip: IPv4Header, options: seq<byte>, payload: seq<byte>)
    requires ip.protocol == PROTOCOL_TCP
    ensures TcpChecksum(h, ip, options, payload) == Rfc1071(StandardBytes(h, ip, options, payload))
            <==> h.urgentPtr == 0 || h.urgentPtr == 0xffff
  {
    var d := DirectBytes(h, ip, options, payload);
    DirectSum(h, ip, options, payload);
    StandardSum(h, ip, options, payload);
    OnesSumIsNorm(d);
    OnesSumIsNorm(StandardBytes(h, ip, options, payload));
    NormAdd(h.urgentPtr, WordSum(d));
    assert WordSum(d) > 0;
  }

  method FeedFields(crc: CRC791, h: TCPHeader)
    requires crc.Valid()
    modifies crc
    ensures crc.Valid() && crc.fed == old(crc.fed) + TcpFields(h)
  {
    crc.AddUint16(h.srcPort);
    crc.AddUint16(h.dstPort);
    crc.AddUint32(h.seqno);
    crc.AddUint32(h.ackno);
    crc.AddUint16(h.offsetAndFlags);
    crc.AddUint16(h.window);
    FieldsGrouped(old(crc.fed), Bytes16(h.srcPort), Bytes16(h.dstPort), Bytes32(h.seqno), Bytes32(h.ackno),
                  Bytes16(h.offsetAndFlags), Bytes16(h.window));
  }

  lemma FieldsGrouped(s: seq<byte>, a: seq<byte>, b: seq<byte>, c: seq<byte>, d: seq<byte>, e: seq<byte>, f: seq<byte>)
    ensures s + a + b + c + d + e + f == s + (a + b + c + d + e + f)
  {
  }

  method CalculateTcpChecksum(h: TCPHeader, ip: IPv4Header, options: seq<byte>, payload: seq<byte>) returns (r: u16)
    ensures |options| + |payload| <= 0x1_0000 ==> r == TcpChecksum(h, ip, options, payload)
  {
    var crc := new CRC791();
    var n := crc.Write(ip.src);
    n := crc.Write(ip.dst);
    assert crc.fed == ip.src + ip.dst;
    crc.AddUint16(TcpLength(ip));
    crc.AddUint16(ip.protocol);
    FeedFields(crc, h);
    n := crc.Write(options);
    n := crc.Write(payload);
    r := crc.Sum16();
  }
}
