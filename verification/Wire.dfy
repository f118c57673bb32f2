/** The wire path of a TCP segment: packet headers made from a segment (stacks/port_tcp.go), and the TCP
    branch of the receiving stack (stacks/portstack.go). */
module Wire {
  import opened SeqNum
  import opened Segments
  import opened Rings
  import opened Checksum
  import opened Headers

  const SIZE_HEADERS: nat := 54
  /** Room for options and payload in a packet. */
  const SIZE_DATA: nat := 1994

  datatype PacketHeaders = PacketHeaders(eth: EthHeader, ip: IPv4Header, tcp: TCPHeader)

  /** The TCP header of a segment, without its checksum. */
  function TcpOf(srcPort: u16, dstPort: u16, seg: Segment): TCPHeader {
    TCPHeader(srcPort, dstPort, seg.seqno, seg.ackno, 0, seg.wnd % 0x1_0000, 0, 0).SetFlags(seg.flags).SetOffset(5)
  }

  /** The headers of a segment with its payload; id is the next identification number. */
  function Calculated(h: PacketHeaders, seg: Segment, payload: seq<byte>, id: u16): PacketHeaders
    requires seg.dataLen == |payload|
  {
    var ip0 := h.ip.(protocol := PROTOCOL_TCP, ttl := 64, id := id, verIhl := 5,
                     totalLength := (20 + 20 + |payload|) % 0x1_0000, flags := 0);
    var ip := ip0.(checksum := IpChecksum(ip0));
    var tcp := TcpOf(h.tcp.srcPort, h.tcp.dstPort, seg);
    PacketHeaders(h.eth.(etherType := ETHERTYPE_IPV4), ip, tcp.(checksum := TcpChecksum(tcp, ip, [], payload)))
  }

  function HeaderBytes(h: PacketHeaders): (b: seq<byte>)
    ensures |b| == SIZE_HEADERS
  {
    EthBytes(h.eth) + IpBytes(h.ip) + TcpBytes(h.tcp)
  }

  /** The built-in copy into a fixed array: what does not fit is left out. */
  function CopyAt(data: seq<byte>, at: nat, src: seq<byte>): (r: seq<byte>)
    requires at <= |data|
    ensures |r| == |data|
  {
    Put(data, at, src[..Min(|src|, |data| - at)])
  }

  /** Where the payload lies in the data of a packet; None for bad header values. */
  datatype Span = None | Span(start: nat, end: nat)

  function PayloadSpan(h: PacketHeaders): Span {
    var tcpOptStart := h.ip.Ihl() * 4 - SIZE_IPV4;
    var start := tcpOptStart + h.tcp.OffsetInBytes() - SIZE_TCP;
    var end := h.ip.totalLength - tcpOptStart - SIZE_TCP - SIZE_IPV4;
    if start < 0 || end < 0 || tcpOptStart < 0 || start > end || end > SIZE_DATA || tcpOptStart > start then None
    else Span(start, end)
  }

  /** What a handler sees as the payload of the packet. */
  function PayloadOf(h: PacketHeaders, data: seq<byte>): seq<byte>
    requires |data| == SIZE_DATA
  {
    match PayloadSpan(h)
    case None => []
    case Span(start, end) => data[start..end]
  }

  datatype WireError =
    | PacketSmall
    | ExceedsMTU
    | BadVersion
    | BadIHL
    | BadTotalLength
    | UnknownProtocol
    | TooShort
    | ZeroPort
    | BadTCPOffset
    | BadChecksum

  /** What becomes of a frame: not for this stack, handled by its ARP or UDP part, refused, or given to the handler of
      a TCP port. */
  datatype Reception =
    | Ignored
    | Elsewhere
    | Refused(err: WireError)
    | Handled(h: PacketHeaders, data: seq<byte>)

  datatype Stack = Stack(mac: Mac, addr: Addr, mtu: u16, ports: set<u16>)

  const BROADCAST: Mac := [255, 255, 255, 255, 255, 255]
  const NO_ADDR: Addr := [0, 0, 0, 0]

  /** The IPv4 TCP branch of RecvEth; data is what the packet buffer held before. */
  function RecvEth(s: Stack, frame: seq<byte>, data: seq<byte>): Reception
    requires |data| == SIZE_DATA
  {
    if |frame| < SIZE_ETHERNET + SIZE_IPV4 then Refused(PacketSmall)
    else if |frame| > s.mtu then Refused(ExceedsMTU)
    else
      var eth := DecodeEth(frame);
      if eth.dst != BROADCAST && eth.dst != s.mac then Ignored
      else if eth.etherType == ETHERTYPE_ARP then Elsewhere
      else if eth.etherType != ETHERTYPE_IPV4 then Ignored
      else
        RecvIp(s, eth, DecodeIp(frame[SIZE_ETHERNET..]), frame, data)
  }

  function RecvIp(s: Stack, eth: EthHeader, ip: IPv4Header, frame: seq<byte>, data: seq<byte>): Reception
    requires |data| == SIZE_DATA && |frame| >= SIZE_ETHERNET + SIZE_IPV4
  {
    var offset := SIZE_ETHERNET + ip.Ihl() * 4;
    var end := Add16(SIZE_ETHERNET, ip.totalLength);
    if ip.Version() != 4 then Refused(BadVersion)
    else if ip.Ihl() * 4 < SIZE_IPV4 then Refused(BadIHL)
    else if s.addr != ip.dst && s.addr != NO_ADDR then Ignored
    else if offset > end || offset > |frame| || end > |frame| then Refused(BadTotalLength)
    else if end > s.mtu then Refused(ExceedsMTU)
    else if ip.protocol == PROTOCOL_UDP then Elsewhere
    else if ip.protocol != PROTOCOL_TCP then Refused(UnknownProtocol)
    else RecvTcp(s, eth, ip, frame[SIZE_ETHERNET + SIZE_IPV4..offset], frame[offset..end], data)
  }

  function RecvTcp(s: Stack, eth: EthHeader, ip: IPv4Header, ipOptions: seq<byte>, packet: seq<byte>,
                   data: seq<byte>): Reception
    requires |data| == SIZE_DATA && |ipOptions| <= 40
  {
    if s.ports == {} then Ignored
    else if |packet| < SIZE_TCP then Refused(TooShort)
    else
      var tcp := DecodeTcp(packet);
      var offset := tcp.OffsetInBytes();
      if tcp.dstPort == 0 || tcp.srcPort == 0 then Refused(ZeroPort)
      else if offset < SIZE_TCP || offset > |packet| then Refused(BadTCPOffset)
      else
        var options, payload := packet[SIZE_TCP..offset], packet[offset..];
        if TcpChecksum(tcp, ip, options, payload) != tcp.checksum then Refused(BadChecksum)
        else if tcp.dstPort !in s.ports then Ignored
        else
          var d1 := CopyAt(data, 0, ipOptions);
          var d2 := CopyAt(d1, |ipOptions|, options);
          Handled(PacketHeaders(eth, ip, tcp), CopyAt(d2, |ipOptions| + |options|, payload))
  }

  // ---------------------------------------------------------------------------------------------
  // Transparency

  /** The two headers agree on everything the checksum and the payload span read. */
  lemma {:induction false} ChecksumIgnoresItself(tcp: TCPHeader, ip: IPv4Header, payload: seq<byte>, x: u16, v: byte)
    requires v % 16 == ip.Ihl()
    ensures TcpChecksum(tcp.(checksum := x), ip.(verIhl := v), [], payload) == TcpChecksum(tcp, ip, [], payload)
  {
  }

  lemma {:induction false} HeadersDecode(h: PacketHeaders, rest: seq<byte>)
    ensures var frame := HeaderBytes(h) + rest;
            && DecodeEth(frame) == h.eth
            && DecodeIp(frame[SIZE_ETHERNET..]) == h.ip.(verIhl := 64 + h.ip.Ihl())
            && frame[SIZE_ETHERNET + SIZE_IPV4..] == TcpBytes(h.tcp) + rest
  {
    var e, i, t := EthBytes(h.eth), IpBytes(h.ip), TcpBytes(h.tcp);
    EthRoundTrip(h.eth, i + t + rest);
    assert e + i + t + rest == e + (i + t + rest);
    IpRoundTrip(h.ip, t + rest);
    assert (e + i + t + rest)[SIZE_ETHERNET..] == i + (t + rest);
    assert (e + i + t + rest)[SIZE_ETHERNET + SIZE_IPV4..] == t + rest;
  }

  lemma {:induction false} CopyPayload(data: seq<byte>, payload: seq<byte>)
    requires |data| == SIZE_DATA && |payload| <= SIZE_DATA
    ensures CopyAt(CopyAt(CopyAt(data, 0, []), 0, []), 0, payload)[..|payload|] == payload
  {
  }

  lemma {:induction false} SegmentSurvives(srcPort: u16, dstPort: u16, seg: Segment, x: u16)
    requires seg.wnd <= 0xffff
    ensures var tcp := TcpOf(srcPort, dstPort, seg).(checksum := x);
            tcp.OffsetInBytes() == 20 && tcp.Segment(seg.dataLen) == seg
  {
    var tcp := TCPHeader(srcPort, dstPort, seg.seqno, seg.ackno, 0, seg.wnd, 0, 0);
    OffsetAndFlagsIndependent(tcp, seg.flags, 5);
  }

  lemma {:induction false} TcpOfFields(srcPort: u16, dstPort: u16, seg: Segment)
    ensures var tcp := TcpOf(srcPort, dstPort, seg);
            tcp.srcPort == srcPort && tcp.dstPort == dstPort && tcp.checksum == 0
  {
  }

  lemma {:induction false} IpArrives(s: Stack, frame: seq<byte>, eth: EthHeader, ip: IPv4Header, end: nat,
                                     data: seq<byte>)
    requires |data| == SIZE_DATA && SIZE_HEADERS <= end <= |frame| <= s.mtu
    requires ip.Ihl() == 5 && ip.Version() == 4 && ip.totalLength == end - SIZE_ETHERNET && ip.protocol == PROTOCOL_TCP
    requires ip.dst == s.addr || s.addr == NO_ADDR
    ensures RecvIp(s, eth, ip, frame, data) == RecvTcp(s, eth, ip, [], frame[34..end], data)
  {
    assert frame[34..34] == [];
  }

  /** A well-formed frame for this stack reaches the TCP branch. */
  lemma {:induction false} EthArrives(s: Stack, frame: seq<byte>, eth: EthHeader, ip: IPv4Header, end: nat,
                                      data: seq<byte>)
    requires |data| == SIZE_DATA && SIZE_HEADERS <= end <= |frame| <= s.mtu
    requires DecodeEth(frame) == eth && DecodeIp(frame[SIZE_ETHERNET..]) == ip
    requires eth.dst == s.mac || eth.dst == BROADCAST
    requires eth.etherType == ETHERTYPE_IPV4
    requires ip.verIhl == 0x45 && ip.totalLength == end - SIZE_ETHERNET && ip.protocol == PROTOCOL_TCP
    requires ip.dst == s.addr || s.addr == NO_ADDR
    ensures RecvEth(s, frame, data) == RecvTcp(s, eth, ip, [], frame[34..end], data)
  {
    IpArrives(s, frame, eth, ip, end, data);
  }

  /** A TCP packet without options that carries its own checksum reaches the handler of its port. */
  lemma {:induction false} TcpArrives(s: Stack, eth: EthHeader, ip: IPv4Header, tcp: TCPHeader, payload: seq<byte>,
                                      packet: seq<byte>, data: seq<byte>)
    requires |data| == SIZE_DATA && |packet| >= SIZE_TCP && packet[SIZE_TCP..] == payload
    requires DecodeTcp(packet) == tcp && tcp.OffsetInBytes() == 20
    requires TcpChecksum(tcp, ip, [], payload) == tcp.checksum
    requires tcp.srcPort != 0 && tcp.dstPort != 0 && tcp.dstPort in s.ports
    ensures RecvTcp(s, eth, ip, [], packet, data)
            == Handled(PacketHeaders(eth, ip, tcp), CopyAt(CopyAt(CopyAt(data, 0, []), 0, []), 0, payload))
  {
    assert packet[SIZE_TCP..SIZE_TCP] == [];
  }

  lemma {:induction false} PayloadSeen(h: PacketHeaders, data: seq<byte>, payload: seq<byte>)
    requires h.ip.Ihl() == 5 && h.tcp.OffsetInBytes() == 20 && h.ip.totalLength == 40 + |payload|
    requires |data| == SIZE_DATA && |payload| <= SIZE_DATA && data[..|payload|] == payload
    ensures PayloadOf(h, data) == payload
  {
  }

  /** A segment with its payload, sent by one stack and received by another it is addressed to, possibly with
      padding behind: it passes every test, and the handler gets the same segment and the same payload,
      whatever the packet buffer held before. */
  lemma {:induction false} WireTransparency(h: PacketHeaders, seg: Segment, payload: seq<byte>, id: u16,
                                            padding: seq<byte>,
                                            s: Stack, data: seq<byte>)
    requires seg.dataLen == |payload| <= SIZE_DATA && seg.wnd <= 0xffff && |data| == SIZE_DATA
    requires SIZE_HEADERS + |payload| + |padding| <= s.mtu
    requires h.eth.dst == s.mac || h.eth.dst == BROADCAST
    requires h.ip.dst == s.addr || s.addr == NO_ADDR
    requires h.tcp.srcPort != 0 && h.tcp.dstPort != 0 && h.tcp.dstPort in s.ports
    ensures var c := Calculated(h, seg, payload, id);
            var r := RecvEth(s, HeaderBytes(c) + payload + padding, data);
            && r.Handled? && r.h.eth == c.eth && r.h.tcp == c.tcp && |r.data| == SIZE_DATA
            && PayloadOf(r.h, r.data) == payload
            && r.h.tcp.Segment(|PayloadOf(r.h, r.data)|) == seg
  {
    var c := Calculated(h, seg, payload, id);
    CalculatedNetwork(h, seg, payload, id);
    CalculatedTransport(h, seg, payload, id);
    CalculatedSegment(h, seg, payload, id);
    FrameArrives(s, c, payload, padding, data);
  }

  // What the calculated headers promise the receiver.

  lemma {:induction false} CalculatedNetwork(h: PacketHeaders, seg: Segment, payload: seq<byte>, id: u16)
    requires seg.dataLen == |payload| <= SIZE_DATA
    ensures var c := Calculated(h, seg, payload, id);
            && c.eth == h.eth.(etherType := ETHERTYPE_IPV4) && c.ip.dst == h.ip.dst
            && c.ip.verIhl == 5 && c.ip.protocol == PROTOCOL_TCP && c.ip.totalLength == 40 + |payload|
  {
  }

  lemma {:induction false} CalculatedTransport(h: PacketHeaders, seg: Segment, payload: seq<byte>, id: u16)
    requires seg.dataLen == |payload|
    ensures var c := Calculated(h, seg, payload, id);
            && c.tcp == TcpOf(h.tcp.srcPort, h.tcp.dstPort, seg).(checksum := c.tcp.checksum)
            && c.tcp.srcPort == h.tcp.srcPort && c.tcp.dstPort == h.tcp.dstPort
            && c.tcp.checksum == TcpChecksum(c.tcp.(checksum := 0), c.ip, [], payload)
  {
    var c := Calculated(h, seg, payload, id);
    TcpOfFields(h.tcp.srcPort, h.tcp.dstPort, seg);
    assert c.tcp.(checksum := 0) == TcpOf(h.tcp.srcPort, h.tcp.dstPort, seg);
  }

  lemma {:induction false} CalculatedSegment(h: PacketHeaders, seg: Segment, payload: seq<byte>, id: u16)
    requires seg.dataLen == |payload| && seg.wnd <= 0xffff
    ensures var tcp := Calculated(h, seg, payload, id).tcp;
            tcp.OffsetInBytes() == 20 && tcp.Segment(|payload|) == seg
  {
    CalculatedTransport(h, seg, payload, id);
    SegmentSurvives(h.tcp.srcPort, h.tcp.dstPort, seg, Calculated(h, seg, payload, id).tcp.checksum);
  }

  /** The headers and the packet in a frame. */
  lemma {:induction false} FrameParts(c: PacketHeaders, payload: seq<byte>, padding: seq<byte>, frame: seq<byte>)
    requires frame == HeaderBytes(c) + payload + padding
    ensures DecodeEth(frame) == c.eth && DecodeIp(frame[SIZE_ETHERNET..]) == c.ip.(verIhl := 64 + c.ip.Ihl())
    ensures frame[34..SIZE_HEADERS + |payload|] == TcpBytes(c.tcp) + payload
  {
    Concat3(HeaderBytes(c), payload, padding);
    HeadersDecode(c, payload + padding);
    var rest := frame[34..];
    assert rest == TcpBytes(c.tcp) + (payload + padding);
    assert frame[34..SIZE_HEADERS + |payload|] == rest[..SIZE_TCP + |payload|];
  }

  lemma {:induction false} PacketArrives(s: Stack, c: PacketHeaders, ip: IPv4Header, payload: seq<byte>,
                                         data: seq<byte>)
    requires |data| == SIZE_DATA && c.tcp.OffsetInBytes() == 20 && c.ip.verIhl == 5 && ip == c.ip.(verIhl := 0x45)
    requires c.tcp.srcPort != 0 && c.tcp.dstPort != 0 && c.tcp.dstPort in s.ports
    requires c.tcp.checksum == TcpChecksum(c.tcp.(checksum := 0), c.ip, [], payload)
    ensures RecvTcp(s, c.eth, ip, [], TcpBytes(c.tcp) + payload, data)
            == Handled(PacketHeaders(c.eth, ip, c.tcp), CopyAt(CopyAt(CopyAt(data, 0, []), 0, []), 0, payload))
  {
    TcpRoundTrip(c.tcp, payload);
    ChecksumIgnoresItself(c.tcp.(checksum := 0), c.ip, payload, c.tcp.checksum, 0x45);
    assert c.tcp.(checksum := 0).(checksum := c.tcp.checksum) == c.tcp;
    assert (TcpBytes(c.tcp) + payload)[SIZE_TCP..] == payload;
    TcpArrives(s, c.eth, ip, c.tcp, payload, TcpBytes(c.tcp) + payload, data);
  }

  /** The same for any headers without options that carry their checksum and length. */
  lemma {:induction false} FrameArrives(s: Stack, c: PacketHeaders, payload: seq<byte>, padding: seq<byte>,
                                        data: seq<byte>)
    requires |payload| <= SIZE_DATA && |data| == SIZE_DATA && SIZE_HEADERS + |payload| + |padding| <= s.mtu
    requires c.eth.dst == s.mac || c.eth.dst == BROADCAST
    requires c.ip.dst == s.addr || s.addr == NO_ADDR
    requires c.eth.etherType == ETHERTYPE_IPV4 && c.ip.verIhl == 5 && c.ip.protocol == PROTOCOL_TCP
    requires c.ip.totalLength == 40 + |payload| && c.tcp.OffsetInBytes() == 20
    requires c.tcp.srcPort != 0 && c.tcp.dstPort != 0 && c.tcp.dstPort in s.ports
    requires c.tcp.checksum == TcpChecksum(c.tcp.(checksum := 0), c.ip, [], payload)
    ensures var r := RecvEth(s, HeaderBytes(c) + payload + padding, data);
            && r.Handled? && r.h.eth == c.eth && r.h.tcp == c.tcp && |r.data| == SIZE_DATA
            && PayloadOf(r.h, r.data) == payload
  {
    FrameHandled(s, c, payload, padding, data);
    PayloadHanded(PacketHeaders(c.eth, c.ip.(verIhl := 0x45), c.tcp), data, payload);
  }

  lemma {:induction false} FrameHandled(s: Stack, c: PacketHeaders, payload: seq<byte>, padding: seq<byte>,
                                        data: seq<byte>)
    requires |payload| <= SIZE_DATA && |data| == SIZE_DATA && SIZE_HEADERS + |payload| + |padding| <= s.mtu
    requires c.eth.dst == s.mac || c.eth.dst == BROADCAST
    requires c.ip.dst == s.addr || s.addr == NO_ADDR
    requires c.eth.etherType == ETHERTYPE_IPV4 && c.ip.verIhl == 5 && c.ip.protocol == PROTOCOL_TCP
    requires c.ip.totalLength == 40 + |payload| && c.tcp.OffsetInBytes() == 20
    requires c.tcp.srcPort != 0 && c.tcp.dstPort != 0 && c.tcp.dstPort in s.ports
    requires c.tcp.checksum == TcpChecksum(c.tcp.(checksum := 0), c.ip, [], payload)
    ensures RecvEth(s, HeaderBytes(c) + payload + padding, data)
            == Handled(PacketHeaders(c.eth, c.ip.(verIhl := 0x45), c.tcp),
                       CopyAt(CopyAt(CopyAt(data, 0, []), 0, []), 0, payload))
  {
    var frame := HeaderBytes(c) + payload + padding;
    var ip := c.ip.(verIhl := 0x45);
    FrameReaches(s, c, payload, padding, frame, data);
    PacketArrives(s, c, ip, payload, data);
  }

  lemma {:induction false} FrameReaches(s: Stack, c: PacketHeaders, payload: seq<byte>, padding: seq<byte>,
                                        frame: seq<byte>, data: seq<byte>)
    requires |payload| <= SIZE_DATA && |data| == SIZE_DATA && SIZE_HEADERS + |payload| + |padding| <= s.mtu
    requires frame == HeaderBytes(c) + payload + padding
    requires c.eth.dst == s.mac || c.eth.dst == BROADCAST
    requires c.ip.dst == s.addr || s.addr == NO_ADDR
    requires c.eth.etherType == ETHERTYPE_IPV4 && c.ip.verIhl == 5 && c.ip.protocol == PROTOCOL_TCP
    requires c.ip.totalLength == 40 + |payload|
    ensures RecvEth(s, frame, data)
            == RecvTcp(s, c.eth, c.ip.(verIhl := 0x45), [], TcpBytes(c.tcp) + payload, data)
  {
    FrameParts(c, payload, padding, frame);
    EthArrives(s, frame, c.eth, c.ip.(verIhl := 0x45), SIZE_HEADERS + |payload|, data);
  }

  lemma {:induction false} PayloadHanded(h: PacketHeaders, data: seq<byte>, payload: seq<byte>)
    requires h.ip.Ihl() == 5 && h.tcp.OffsetInBytes() == 20 && h.ip.totalLength == 40 + |payload|
    requires |data| == SIZE_DATA && |payload| <= SIZE_DATA
    ensures var d := CopyAt(CopyAt(CopyAt(data, 0, []), 0, []), 0, payload);
            |d| == SIZE_DATA && PayloadOf(h, d) == payload
  {
    CopyPayload(data, payload);
    PayloadSeen(h, CopyAt(CopyAt(CopyAt(data, 0, []), 0, []), 0, payload), payload);
  }

  /** With IP options the payload span is too short by their length: the handler sees the whole payload exactly
      when there are no IP options or there is no payload. */
  lemma {:induction false} PayloadNeedsNoIpOptions(h: PacketHeaders, options: seq<byte>, payload: seq<byte>,
                                                   data: seq<byte>)
    requires 5 <= h.ip.Ihl() && 5 <= h.tcp.Offset() && |options| == h.tcp.OffsetInBytes() - 20
    requires h.ip.totalLength == h.ip.Ihl() * 4 + h.tcp.OffsetInBytes() + |payload|
    requires |data| == SIZE_DATA && h.ip.totalLength - 40 <= SIZE_DATA
    requires data[h.ip.Ihl() * 4 - 20 + |options|..h.ip.totalLength - 40] == payload
    ensures PayloadOf(h, data) == payload <==> h.ip.Ihl() == 5 || payload == []
  {
  }
}
