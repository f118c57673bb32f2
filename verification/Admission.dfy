/** Which frames reach a TCP handler, byte by byte (stacks/portstack.go): exactly those that are addressed to the stack,
    well formed and whole, for an open port, and whose checksum is right. */
module Admission {
  import opened SeqNum
  import opened Segments
  import opened Rings
  import opened Checksum
  import opened Headers
  import opened Wire

  // ---------------------------------------------------------------------------------------------
  // A frame, byte by byte

  /** Where the transport segment starts: the low digit of byte 14 counts 32-bit words. */
  function SegmentStart(f: seq<byte>): nat
    requires |f| >= 34
  {
    14 + f[14] % 16 * 4
  }

  /** Where the datagram ends, by its total length. */
  function SegmentEnd(f: seq<byte>): nat
    requires |f| >= 34
  {
    14 + (f[16] as int) * 256 + f[17] as int
  }

  /** An Ethernet destination that the stack listens to. */
  predicate ForMac(s: Stack, f: seq<byte>)
    requires |f| >= 34
  {
    f[0..6] == s.mac || f[0..6] == [255, 255, 255, 255, 255, 255]
  }

  /** A stack without an address takes every IP destination. */
  predicate ForAddr(s: Stack, f: seq<byte>)
    requires |f| >= 34
  {
    s.addr == f[30..34] || s.addr == [0, 0, 0, 0]
  }

  /** A frame that carries an IPv4 header of at least five words. */
  predicate HoldsIp(s: Stack, f: seq<byte>) {
    && 34 <= |f| <= s.mtu && ForMac(s, f)
    && f[12] == 8 && f[13] == 0 && f[14] / 16 == 4 && f[14] % 16 >= 5
  }

  /** The datagram is for this stack and lies in the frame. */
  predicate HoldsDatagram(s: Stack, f: seq<byte>) {
    HoldsIp(s, f) && ForAddr(s, f) && SegmentStart(f) <= SegmentEnd(f) <= |f|
  }

  /** It carries a TCP segment with its header in it, from and for a port that is not zero. */
  predicate HoldsTcp(s: Stack, f: seq<byte>) {
    && HoldsDatagram(s, f) && f[23] == 6
    && var t, end := SegmentStart(f), SegmentEnd(f);
       && t + 20 <= end
       && !(f[t] == 0 && f[t + 1] == 0) && !(f[t + 2] == 0 && f[t + 3] == 0)
       && 20 <= f[t + 12] / 16 * 4 <= end - t
  }

  /** What the checksum covers: the addresses, the protocol and the length, and the segment with its checksum in place
      but without its urgent pointer. */
  function Covered(f: seq<byte>): seq<byte>
    requires |f| >= 34 && SegmentStart(f) + 20 <= SegmentEnd(f) <= |f|
  {
    var t, end := SegmentStart(f), SegmentEnd(f);
    f[26..34] + [0, f[23]] + Bytes16((end - t) % 0x1_0000) + f[t..t + 18] + [0, 0] + f[t + 20..end]
  }

  /** The checksum is right, and zero is not written as 0xffff. */
  predicate ChecksumRight(f: seq<byte>)
    requires |f| >= 34 && SegmentStart(f) + 20 <= SegmentEnd(f) <= |f|
  {
    Rfc1071(Covered(f)) == 0 && !(f[SegmentStart(f) + 16] == 255 && f[SegmentStart(f) + 17] == 255)
  }

  function DestinationPort(f: seq<byte>): u16
    requires |f| >= 34 && SegmentStart(f) + 20 <= |f|
  {
    (f[SegmentStart(f) + 2] as int) * 256 + f[SegmentStart(f) + 3] as int
  }

  // ---------------------------------------------------------------------------------------------
  // The checksum

  lemma BytesOfWord(b: seq<byte>, i: nat)
    requires i + 2 <= |b|
    ensures Bytes16(At16(b, i)) == b[i..i + 2]
  {
  }

  lemma BytesOfLong(b: seq<byte>, i: nat)
    requires i + 4 <= |b|
    ensures Bytes32(At32(b, i)) == b[i..i + 4]
  {
    BytesOfWord(b, i);
    BytesOfWord(b, i + 2);
    assert b[i..i + 4] == b[i..i + 2] + b[i + 2..i + 4];
    assert At32(b, i) / 0x1_0000 == At16(b, i) && At32(b, i) % 0x1_0000 == At16(b, i + 2);
  }

  /** Decoding a TCP header loses nothing. */
  lemma {:induction false} TcpBytesOfDecoded(b: seq<byte>)
    requires |b| >= 20
    ensures TcpBytes(DecodeTcp(b)) == b[..20]
  {
    BytesOfWord(b, 0);
    BytesOfWord(b, 2);
    BytesOfLong(b, 4);
    BytesOfLong(b, 8);
    BytesOfWord(b, 12);
    BytesOfWord(b, 14);
    BytesOfWord(b, 16);
    BytesOfWord(b, 18);
    assert b[..20] == b[0..2] + b[2..4] + b[4..8] + b[8..12] + b[12..14] + b[14..16] + b[16..18] + b[18..20];
  }

  /** The segment with its urgent pointer zero and any checksum. */
  function Summed(h: TCPHeader, ip: IPv4Header, options: seq<byte>, payload: seq<byte>): seq<byte> {
    ip.src + ip.dst + [0, ip.protocol] + Bytes16(TcpLength(ip)) + TcpBytes(h.(urgentPtr := 0)) + options + payload
  }

  lemma {:induction false} SummedWithWord(h: TCPHeader, ip: IPv4Header, options: seq<byte>, payload: seq<byte>, x: u16)
    ensures |Summed(h, ip, options, payload)| >= 32
    ensures Summed(h.(checksum := x), ip, options, payload) == WithWord(Summed(h, ip, options, payload), 28, x)
  {
    var a := ip.src + ip.dst + [0, ip.protocol] + Bytes16(TcpLength(ip));
    var fields := TcpFields(h);
    var tail := options + payload;
    assert forall y: u16 :: TcpBytes(h.(checksum := y, urgentPtr := 0)) == fields + Bytes16(y) + [0, 0];
    assert forall y: u16 :: Summed(h.(checksum := y), ip, options, payload)
                            == a + fields + Bytes16(y) + ([0, 0] + tail);
    assert h.(checksum := h.checksum) == h;
    var s := Summed(h, ip, options, payload);
    assert s[..28] == a + fields && s[30..] == [0, 0] + tail;
  }

  /** The test on a received segment: it holds what it should exactly when everything it covers sums to zero, and the
      field is not the other zero. */
  lemma {:induction false} ChecksumMatchesIff(h: TCPHeader, ip: IPv4Header, options: seq<byte>, payload: seq<byte>)
    requires ip.protocol == 6
    ensures TcpChecksum(h, ip, options, payload) == h.checksum <==>
              Rfc1071(Summed(h, ip, options, payload)) == 0 && h.checksum != 0xffff
  {
    var h0 := h.(checksum := 0, urgentPtr := 0);
    DirectSum(h, ip, options, payload);
    StandardSum(h0, ip, options, payload);
    assert TcpFields(h0) == TcpFields(h);
    assert Summed(h0, ip, options, payload) == StandardBytes(h0, ip, options, payload);
    var d := DirectBytes(h, ip, options, payload);
    OnesSumIsNorm(d);
    OnesSumIsNorm(Summed(h0, ip, options, payload));
    assert WordSum(d) > 0;
    SummedWithWord(h, ip, options, payload, 0);
    SummedWithWord(h, ip, options, payload, h.checksum);
    assert Summed(h.(checksum := 0), ip, options, payload) == Summed(h0, ip, options, payload);
    SelfVerifies(Summed(h, ip, options, payload), 28, h.checksum);
    assert h.(checksum := h.checksum) == h;
  }

  // ---------------------------------------------------------------------------------------------
  // The tests, from the inside out

  /** What becomes of a TCP packet. */
  lemma {:induction false} TcpDecided(s: Stack, eth: EthHeader, ip: IPv4Header, ipOptions: seq<byte>,
                                      packet: seq<byte>, data: seq<byte>)
    requires |data| == SIZE_DATA && |ipOptions| <= 40 && ip.protocol == 6
    ensures var r := RecvTcp(s, eth, ip, ipOptions, packet, data);
            var formed := && |packet| >= 20
                          && !(packet[0] == 0 && packet[1] == 0) && !(packet[2] == 0 && packet[3] == 0)
                          && 20 <= packet[12] / 16 * 4 <= |packet|;
            && (!formed ==>
                  if s.ports == {} then r == Ignored
                  else if |packet| < 20 then r == Refused(TooShort)
                  else if (packet[0] == 0 && packet[1] == 0) || (packet[2] == 0 && packet[3] == 0) then
                    r == Refused(ZeroPort)
                  else r == Refused(BadTCPOffset))
            && (formed ==>
                  var tcp := DecodeTcp(packet);
                  var o := packet[12] / 16 * 4;
                  var right := && Rfc1071(Summed(tcp, ip, packet[20..o], packet[o..])) == 0
                               && !(packet[16] == 255 && packet[17] == 255);
                  && (r == Refused(BadChecksum) <==> s.ports != {} && !right)
                  && (r == Ignored <==> s.ports == {} || (right && tcp.dstPort !in s.ports))
                  && (r.Handled? <==> right && tcp.dstPort in s.ports)
                  && (r.Handled? ==> r.h == PacketHeaders(eth, ip, tcp)))
  {
    if |packet| >= 20 {
      var tcp := DecodeTcp(packet);
      OffsetByte(tcp, packet);
      if 20 <= tcp.OffsetInBytes() <= |packet| {
        var o := tcp.OffsetInBytes();
        ChecksumMatchesIff(tcp, ip, packet[20..o], packet[o..]);
      }
    }
  }

  /** The data offset is in the high digit of byte 12. */
  lemma OffsetByte(tcp: TCPHeader, packet: seq<byte>)
    requires |packet| >= 20 && tcp == DecodeTcp(packet)
    ensures tcp.OffsetInBytes() == packet[12] / 16 * 4
    ensures tcp.checksum == 0xffff <==> packet[16] == 255 && packet[17] == 255
    ensures tcp.srcPort == 0 <==> packet[0] == 0 && packet[1] == 0
    ensures tcp.dstPort == 0 <==> packet[2] == 0 && packet[3] == 0
  {
  }

  lemma {:induction false} IpFields(f: seq<byte>)
    requires |f| >= 34
    ensures var ip := DecodeIp(f[14..]);
            && ip.verIhl == f[14] && ip.totalLength == (f[16] as int) * 256 + f[17] as int && ip.protocol == f[23]
            && ip.dst == f[30..34] && ip.src == f[26..30]
  {
    var b := f[14..];
    assert b[0] == f[14] && b[2] == f[16] && b[3] == f[17] && b[9] == f[23];
    assert b[16..20] == f[30..34] && b[12..16] == f[26..30];
  }

  /** The end of the datagram wraps around only if it lies far outside the frame. */
  lemma WholeIff(f: seq<byte>, ip: IPv4Header)
    requires 34 <= |f| <= 0xffff
    requires ip.verIhl == f[14] && ip.totalLength == (f[16] as int) * 256 + f[17] as int
    ensures var end := Add16(14, ip.totalLength);
            && 14 + ip.Ihl() * 4 == SegmentStart(f) && ip.Version() == f[14] / 16
            && (SegmentStart(f) <= SegmentEnd(f) <= |f| ==> end == SegmentEnd(f))
            && (!(SegmentStart(f) <= SegmentEnd(f) <= |f|) ==> SegmentStart(f) > end || end > |f|)
  {
  }

  lemma {:induction false} IpDecided(s: Stack, eth: EthHeader, f: seq<byte>, ip: IPv4Header, data: seq<byte>)
    requires |data| == SIZE_DATA && 34 <= |f| <= s.mtu
    requires ip.verIhl == f[14] && ip.totalLength == (f[16] as int) * 256 + f[17] as int && ip.protocol == f[23]
    requires ip.dst == f[30..34]
    ensures var r := RecvIp(s, eth, ip, f, data);
            var versions := f[14] / 16 == 4 && f[14] % 16 >= 5;
            var t, end := SegmentStart(f), SegmentEnd(f);
            if !versions then r == Refused(if f[14] / 16 != 4 then BadVersion else BadIHL)
            else if !ForAddr(s, f) then r == Ignored
            else if !(t <= end <= |f|) then r == Refused(BadTotalLength)
            else if f[23] == 17 then r == Elsewhere
            else if f[23] != 6 then r == Refused(UnknownProtocol)
            else ip.protocol == 6 && r == RecvTcp(s, eth, ip, f[34..t], f[t..end], data)
  {
    WholeIff(f, ip);
  }

  lemma {:induction false} EthDecided(s: Stack, f: seq<byte>, data: seq<byte>)
    requires |data| == SIZE_DATA
    ensures var r := RecvEth(s, f, data);
            && (!(34 <= |f| <= s.mtu) ==> r == Refused(if |f| < 34 then PacketSmall else ExceedsMTU))
            && (34 <= |f| <= s.mtu ==>
                  if !ForMac(s, f) then r == Ignored
                  else if f[12] == 8 && f[13] == 6 then r == Elsewhere
                  else if !(f[12] == 8 && f[13] == 0) then r == Ignored
                  else r == RecvIp(s, DecodeEth(f), DecodeIp(f[14..]), f, data))
  {
  }

  lemma Subslice(s: seq<byte>, i: nat, j: nat, a: nat, b: nat)
    requires i <= j <= |s| && a <= b <= j - i
    ensures s[i..j][a..b] == s[i + a..i + b]
  {
    assert forall k :: 0 <= k < b - a ==> s[i..j][a..b][k] == s[i + a..i + b][k];
  }

  lemma Joined(s: seq<byte>, a: nat, b: nat, c: nat)
    requires a <= b <= c <= |s|
    ensures s[a..b] + s[b..c] == s[a..c]
  {
  }

  /** The addresses and the header in a frame. */
  lemma {:induction false} PartsOfFrame(f: seq<byte>, t: nat, end: nat, o: nat)
    requires 34 <= |f| && 20 <= o && t + o <= end <= |f|
    ensures var packet, ip := f[t..end], DecodeIp(f[14..]);
            && ip.src + ip.dst == f[26..34] && ip.protocol == f[23]
            && packet[..18] == f[t..t + 18] && packet[20..o] + packet[o..] == f[t + 20..end]
  {
    var packet := f[t..end];
    Subslice(f, 14, |f|, 12, 16);
    Subslice(f, 14, |f|, 16, 20);
    Joined(f, 26, 30, 34);
    Subslice(f, t, end, 0, 18);
    Subslice(f, t, end, 20, o);
    Subslice(f, t, end, o, end - t);
    Joined(f, t + 20, t + o, end);
    assert packet[o..] == packet[o..end - t] && f[14..] == f[14..|f|];
  }

  lemma {:induction false} WithoutUrgent(packet: seq<byte>)
    requires |packet| >= 20
    ensures TcpBytes(DecodeTcp(packet).(urgentPtr := 0)) == packet[..18] + [0, 0]
  {
    var h := DecodeTcp(packet);
    TcpBytesOfDecoded(packet);
    var a := TcpFields(h) + Bytes16(h.checksum);
    assert TcpBytes(h) == a + Bytes16(h.urgentPtr) && TcpBytes(h.(urgentPtr := 0)) == a + Bytes16(0);
    assert packet[..18] == packet[..20][..18] == a;
  }

  /** What the receiver sums is what the frame holds. */
  lemma {:induction false} SummedIsCovered(f: seq<byte>)
    requires |f| >= 34 && SegmentStart(f) + 20 <= SegmentEnd(f) <= |f| && f[14] % 16 >= 5
    requires 20 <= f[SegmentStart(f) + 12] / 16 * 4 <= SegmentEnd(f) - SegmentStart(f)
    ensures var packet := f[SegmentStart(f)..SegmentEnd(f)];
            var o := packet[12] / 16 * 4;
            Summed(DecodeTcp(packet), DecodeIp(f[14..]), packet[20..o], packet[o..]) == Covered(f)
  {
    var t, end := SegmentStart(f), SegmentEnd(f);
    var packet := f[t..end];
    var o := packet[12] / 16 * 4;
    var tcp, ip := DecodeTcp(packet), DecodeIp(f[14..]);
    PartsOfFrame(f, t, end, o);
    WithoutUrgent(packet);
    LengthOfFrame(f);
    var head := f[26..34] + [0, f[23]] + Bytes16((end - t) % 0x1_0000);
    Concat3(head, f[t..t + 18], [0, 0]);
    Concat3(head + (f[t..t + 18] + [0, 0]), packet[20..o], packet[o..]);
  }

  lemma LengthOfFrame(f: seq<byte>)
    requires |f| >= 34 && SegmentStart(f) <= SegmentEnd(f)
    ensures TcpLength(DecodeIp(f[14..])) == (SegmentEnd(f) - SegmentStart(f)) % 0x1_0000
  {
    var b := f[14..];
    var ip := DecodeIp(b);
    assert b[0] == f[14] && b[2] == f[16] && b[3] == f[17];
    assert ip.totalLength - ip.Ihl() * 4 == SegmentEnd(f) - SegmentStart(f);
  }

  // ---------------------------------------------------------------------------------------------
  // The results

  lemma {:induction false} FormedArrives(s: Stack, f: seq<byte>, data: seq<byte>)
    requires |data| == SIZE_DATA && HoldsTcp(s, f)
    ensures var t, end := SegmentStart(f), SegmentEnd(f);
            && DecodeIp(f[14..]).protocol == 6 && |f[34..t]| <= 40
            && RecvEth(s, f, data) == RecvTcp(s, DecodeEth(f), DecodeIp(f[14..]), f[34..t], f[t..end], data)
  {
    EthDecided(s, f, data);
    IpFields(f);
    IpDecided(s, DecodeEth(f), f, DecodeIp(f[14..]), data);
  }

  lemma {:induction false} PacketBytes(f: seq<byte>, t: nat, end: nat)
    requires t + 20 <= end <= |f|
    ensures var packet := f[t..end];
            && (forall i :: 0 <= i < 20 ==> packet[i] == f[t + i]) && DecodeTcp(packet) == DecodeTcp(f[t..])
  {
  }

  lemma {:induction false} PacketOfFrame(f: seq<byte>, t: nat, end: nat)
    requires |f| >= 34 && t == SegmentStart(f) && end == SegmentEnd(f) && t + 20 <= end <= |f| && f[14] % 16 >= 5
    requires 20 <= f[t + 12] / 16 * 4 <= end - t
    ensures var packet := f[t..end];
            var tcp, o := DecodeTcp(packet), packet[12] / 16 * 4;
            && 20 <= o <= |packet| && tcp.dstPort == DestinationPort(f)
            && (ChecksumRight(f) <==> && Rfc1071(Summed(tcp, DecodeIp(f[14..]), packet[20..o], packet[o..])) == 0
                                      && !(packet[16] == 255 && packet[17] == 255))
  {
    SummedIsCovered(f);
    PacketBytes(f, t, end);
  }

  /** What a formed segment comes to. */
  lemma {:induction false} FormedDecided(s: Stack, f: seq<byte>, data: seq<byte>)
    requires |data| == SIZE_DATA && HoldsTcp(s, f)
    ensures var r := RecvEth(s, f, data);
            && (r == Refused(BadChecksum) <==> s.ports != {} && !ChecksumRight(f))
            && (r == Ignored <==> s.ports == {} || (ChecksumRight(f) && DestinationPort(f) !in s.ports))
            && (r.Handled? <==> ChecksumRight(f) && DestinationPort(f) in s.ports)
            && (r.Handled? ==> r.h == PacketHeaders(DecodeEth(f), DecodeIp(f[14..]), DecodeTcp(f[SegmentStart(f)..])))
  {
    var t, end := SegmentStart(f), SegmentEnd(f);
    FormedArrives(s, f, data);
    PacketOfFrame(f, t, end);
    PacketBytes(f, t, end);
    TcpDecided(s, DecodeEth(f), DecodeIp(f[14..]), f[34..t], f[t..end], data);
  }

  lemma {:induction false} UnformedDecided(s: Stack, f: seq<byte>, data: seq<byte>)
    requires |data| == SIZE_DATA && !HoldsTcp(s, f)
    ensures var r := RecvEth(s, f, data);
            !r.Handled? && r != Refused(BadChecksum)
  {
    EthDecided(s, f, data);
    if 34 <= |f| <= s.mtu {
      IpFields(f);
      IpDecided(s, DecodeEth(f), f, DecodeIp(f[14..]), data);
      var t, end := SegmentStart(f), SegmentEnd(f);
      if HoldsDatagram(s, f) && f[23] == 6 {
        TcpDecided(s, DecodeEth(f), DecodeIp(f[14..]), f[34..t], f[t..end], data);
      }
    }
  }

  /** Of all frames, exactly those reach a handler that are for this stack by their Ethernet and IP destinations, hold
      a whole TCP segment for an open port, and sum to zero over what the checksum covers. */
  lemma {:induction false} HandledIff(s: Stack, f: seq<byte>, data: seq<byte>)
    requires |data| == SIZE_DATA
    ensures RecvEth(s, f, data).Handled? <==>
              HoldsTcp(s, f) && ChecksumRight(f) && DestinationPort(f) in s.ports
    ensures RecvEth(s, f, data) == Refused(BadChecksum) <==>
              HoldsTcp(s, f) && !ChecksumRight(f) && s.ports != {}
  {
    if HoldsTcp(s, f) {
      FormedDecided(s, f, data);
    } else {
      UnformedDecided(s, f, data);
    }
  }

  /** The frame carries a TCP packet of any shape to a stack that has ports open. */
  predicate HoldsPacket(s: Stack, f: seq<byte>) {
    HoldsDatagram(s, f) && f[23] == 6 && s.ports != {}
  }

  predicate HoldsPorts(s: Stack, f: seq<byte>) {
    && HoldsPacket(s, f) && SegmentStart(f) + 20 <= SegmentEnd(f)
    && var t := SegmentStart(f);
       !(f[t] == 0 && f[t + 1] == 0) && !(f[t + 2] == 0 && f[t + 3] == 0)
  }

  /** Why the other frames are refused, every reason with all its frames. The length of a datagram can never exceed the
      MTU when the frame does not. */
  lemma {:induction false} RefusedIff(s: Stack, f: seq<byte>, data: seq<byte>)
    requires |data| == SIZE_DATA
    ensures var r := RecvEth(s, f, data);
            var ours := 34 <= |f| <= s.mtu && ForMac(s, f) && f[12] == 8 && f[13] == 0;
            && (r == Refused(PacketSmall) <==> |f| < 34)
            && (r == Refused(ExceedsMTU) <==> |f| >= 34 && |f| > s.mtu)
            && (r == Refused(BadVersion) <==> ours && f[14] / 16 != 4)
            && (r == Refused(BadIHL) <==> ours && f[14] / 16 == 4 && f[14] % 16 < 5)
            && (r == Refused(BadTotalLength) <==>
                  HoldsIp(s, f) && ForAddr(s, f) && !(SegmentStart(f) <= SegmentEnd(f) <= |f|))
            && (r == Refused(UnknownProtocol) <==> HoldsDatagram(s, f) && f[23] !in {6, 17})
            && (r == Refused(TooShort) <==> HoldsPacket(s, f) && SegmentEnd(f) < SegmentStart(f) + 20)
            && (r == Refused(ZeroPort) <==>
                  HoldsPacket(s, f) && SegmentStart(f) + 20 <= SegmentEnd(f) && !HoldsPorts(s, f))
            && (r == Refused(BadTCPOffset) <==> HoldsPorts(s, f) && !HoldsTcp(s, f))
  {
    EthDecided(s, f, data);
    if 34 <= |f| <= s.mtu {
      IpFields(f);
      IpDecided(s, DecodeEth(f), f, DecodeIp(f[14..]), data);
      if HoldsTcp(s, f) {
        FormedDecided(s, f, data);
      } else if HoldsDatagram(s, f) && f[23] == 6 {
        PacketDecided(s, f, data);
      }
    }
  }

  lemma {:induction false} PacketDecided(s: Stack, f: seq<byte>, data: seq<byte>)
    requires |data| == SIZE_DATA && HoldsDatagram(s, f) && f[23] == 6 && !HoldsTcp(s, f)
    ensures var r := RecvEth(s, f, data);
            r == if s.ports == {} then Ignored
                 else if SegmentEnd(f) < SegmentStart(f) + 20 then Refused(TooShort)
                 else if !HoldsPorts(s, f) then Refused(ZeroPort)
                 else Refused(BadTCPOffset)
  {
    EthDecided(s, f, data);
    IpFields(f);
    IpDecided(s, DecodeEth(f), f, DecodeIp(f[14..]), data);
    var t, end := SegmentStart(f), SegmentEnd(f);
    if t + 20 <= end {
      PacketBytes(f, t, end);
    }
    TcpDecided(s, DecodeEth(f), DecodeIp(f[14..]), f[34..t], f[t..end], data);
  }

  /** The frames that are left alone, and those that are for another part of the stack. */
  lemma {:induction false} IgnoredIff(s: Stack, f: seq<byte>, data: seq<byte>)
    requires |data| == SIZE_DATA
    ensures var r := RecvEth(s, f, data);
            var sized := 34 <= |f| <= s.mtu;
            && (r == Elsewhere <==>
                  || (sized && ForMac(s, f) && f[12] == 8 && f[13] == 6) || (HoldsDatagram(s, f) && f[23] == 17))
            && (r == Ignored <==>
                  || (sized && !ForMac(s, f))
                  || (sized && ForMac(s, f) && !(f[12] == 8 && f[13] in {0, 6}))
                  || (HoldsIp(s, f) && !ForAddr(s, f))
                  || (HoldsDatagram(s, f) && f[23] == 6 && s.ports == {})
                  || (HoldsTcp(s, f) && ChecksumRight(f) && DestinationPort(f) !in s.ports))
  {
    EthDecided(s, f, data);
    if 34 <= |f| <= s.mtu {
      IpFields(f);
      IpDecided(s, DecodeEth(f), f, DecodeIp(f[14..]), data);
      if HoldsTcp(s, f) {
        FormedDecided(s, f, data);
      } else if HoldsDatagram(s, f) && f[23] == 6 {
        PacketDecided(s, f, data);
      }
    }
  }

  // ---------------------------------------------------------------------------------------------
  // A damaged byte

  lemma {:induction false} OneByteSum(s: seq<byte>, i: nat, v: byte)
    requires i < |s|
    ensures WordSum(s[i := v]) == WordSum(s) + (v - s[i]) * (if i % 2 == 0 then 256 else 1)
    decreases |s|
  {
    if i >= 2 {
      OneByteSum(s[2..], i - 2, v);
      assert s[i := v][2..] == s[2..][i - 2 := v];
    } else if |s| >= 2 {
      assert s[i := v][2..] == s[2..];
    }
  }

  /** Changing one byte changes the checksum, unless it makes all bytes zero or they all were. */
  lemma {:induction false} OneByteShows(s: seq<byte>, i: nat, v: byte)
    requires i < |s| && v != s[i] && WordSum(s) > 0 && WordSum(s[i := v]) > 0
    ensures OnesSum(s) != OnesSum(s[i := v])
  {
    OneByteSum(s, i, v);
    OnesSumIsNorm(s);
    OnesSumIsNorm(s[i := v]);
    var d := (v - s[i]) * (if i % 2 == 0 then 256 else 1);
    assert -0xffff < d < 0xffff && d != 0;
    NormApart(WordSum(s), d);
  }

  lemma NormApart(n: nat, d: int)
    requires n > 0 && n + d > 0 && -0xffff < d < 0xffff && d != 0
    ensures Norm(n) != Norm(n + d)
  {
  }

  /** A frame that a handler would get, with one byte of its options or payload changed on the way: it is refused, and
      the handler does not see it. */
  lemma {:induction false} DamagedIsRefused(s: Stack, f: seq<byte>, i: nat, v: byte, data: seq<byte>)
    requires |data| == SIZE_DATA && RecvEth(s, f, data).Handled?
    requires SegmentStart(f) + 20 <= i < SegmentEnd(f) && i < |f| && v != f[i]
    ensures RecvEth(s, f[i := v], data) == Refused(BadChecksum)
  {
    HandledIff(s, f, data);
    HandledIff(s, f[i := v], data);
    var g := f[i := v];
    var t, end := SegmentStart(f), SegmentEnd(f);
    SameHead(s, f, i, v);
    var j := i - t + 12;
    CoveredChanged(f, i, v);
    OneByteSum(Covered(f), j, v);
    ProtocolShows(f);
    ProtocolShows(g);
    OneByteShows(Covered(f), j, v);
  }

  lemma {:induction false} SameHead(s: Stack, f: seq<byte>, i: nat, v: byte)
    requires HoldsTcp(s, f) && SegmentStart(f) + 20 <= i < SegmentEnd(f) && i < |f|
    ensures var g := f[i := v];
            && HoldsTcp(s, g) && SegmentStart(g) == SegmentStart(f) && SegmentEnd(g) == SegmentEnd(f)
  {
    var g := f[i := v];
    assert g[0..6] == f[0..6] && g[30..34] == f[30..34];
  }

  lemma {:induction false} CoveredChanged(f: seq<byte>, i: nat, v: byte)
    requires |f| >= 34 && 34 <= SegmentStart(f) && SegmentStart(f) + 20 <= SegmentEnd(f) <= |f|
    requires SegmentStart(f) + 20 <= i < SegmentEnd(f)
    requires SegmentStart(f[i := v]) == SegmentStart(f) && SegmentEnd(f[i := v]) == SegmentEnd(f)
    ensures i - SegmentStart(f) + 12 < |Covered(f)| && Covered(f)[i - SegmentStart(f) + 12] == f[i]
    ensures Covered(f[i := v]) == Covered(f)[i - SegmentStart(f) + 12 := v]
  {
    HeadUnchanged(f, i, v);
    var t, end := SegmentStart(f), SegmentEnd(f);
    var head := f[26..34] + [0, f[23]] + Bytes16((end - t) % 0x1_0000) + f[t..t + 18] + [0, 0];
    TailChanged(head, f, t + 20, end, i, v);
  }

  lemma {:induction false} HeadUnchanged(f: seq<byte>, i: nat, v: byte)
    requires |f| >= 34 && 34 <= SegmentStart(f) && SegmentStart(f) + 20 <= i < |f|
    ensures var g, t := f[i := v], SegmentStart(f);
            g[26..34] == f[26..34] && g[t..t + 18] == f[t..t + 18] && g[23] == f[23]
  {
  }

  lemma {:induction false} TailChanged(head: seq<byte>, f: seq<byte>, a: nat, b: nat, i: nat, v: byte)
    requires a <= i < b <= |f|
    ensures (head + f[a..b])[|head| + i - a] == f[i]
    ensures head + f[i := v][a..b] == (head + f[a..b])[|head| + i - a := v]
  {
    assert f[i := v][a..b] == f[a..b][i - a := v];
  }

  lemma {:induction false} ProtocolShows(f: seq<byte>)
    requires |f| >= 34 && SegmentStart(f) + 20 <= SegmentEnd(f) <= |f| && f[23] == 6
    ensures WordSum(Covered(f)) > 0
  {
    var t, end := SegmentStart(f), SegmentEnd(f);
    var rest := Bytes16((end - t) % 0x1_0000) + f[t..t + 18] + [0, 0] + f[t + 20..end];
    assert Covered(f) == f[26..34] + ([0, f[23]] + rest);
    WordSumConcat(f[26..34], [0, f[23]] + rest);
    WordSumConcat([0, f[23]], rest);
    assert WordSum([0, f[23]]) == 6 by {
      assert [0, f[23]][2..] == [];
    }
  }

  // ---------------------------------------------------------------------------------------------
  // What the handler gets

  /** The headers that the handler finds are those of the frame. */
  lemma {:induction false} HandlerGetsHeaders(s: Stack, f: seq<byte>, data: seq<byte>)
    requires |data| == SIZE_DATA && RecvEth(s, f, data).Handled?
    ensures HoldsTcp(s, f)
    ensures var h := RecvEth(s, f, data).h;
            var t, end := SegmentStart(f), SegmentEnd(f);
            && TcpBytes(h.tcp) == f[t..t + 20] && h.ip.totalLength == end - 14
            && h.ip.src == f[26..30] && h.ip.dst == f[30..34] && h.eth.src == f[6..12]
  {
    HandledIff(s, f, data);
    FormedDecided(s, f, data);
    IpFields(f);
    var t := SegmentStart(f);
    TcpBytesOfDecoded(f[t..]);
    assert f[t..][..20] == f[t..t + 20];
  }

  /** The handler finds the IP options, the TCP options and the payload one after the other at the start of the packet's
      data, as far as they fit, and what the buffer held before behind them. */
  lemma {:induction false} HandlerGets(s: Stack, f: seq<byte>, data: seq<byte>)
    requires |data| == SIZE_DATA && RecvEth(s, f, data).Handled?
    ensures HoldsTcp(s, f)
    ensures var d := RecvEth(s, f, data).data;
            var all := f[34..SegmentStart(f)] + f[SegmentStart(f) + 20..SegmentEnd(f)];
            d == if |all| <= SIZE_DATA then all + data[|all|..] else all[..SIZE_DATA]
  {
    HandledIff(s, f, data);
    var o := DataHanded(s, f, data);
    OptionsAndPayload(f, SegmentStart(f), SegmentEnd(f), o, data);
  }

  lemma {:induction false} DataHanded(s: Stack, f: seq<byte>, data: seq<byte>) returns (o: nat)
    requires |data| == SIZE_DATA && HoldsTcp(s, f) && RecvEth(s, f, data).Handled?
    ensures var t, end := SegmentStart(f), SegmentEnd(f);
            && 34 <= t <= 74 && 20 <= o <= 60 && t + o <= end
            && RecvEth(s, f, data).data == Copies(data, f[34..t], f[t..end], o)
  {
    FormedArrives(s, f, data);
    o := TcpCopies(s, DecodeEth(f), DecodeIp(f[14..]), f[34..SegmentStart(f)], f[SegmentStart(f)..SegmentEnd(f)], data,
                   RecvEth(s, f, data));
  }

  function Copies(data: seq<byte>, ipOptions: seq<byte>, packet: seq<byte>, o: nat): seq<byte>
    requires |data| == SIZE_DATA && |ipOptions| <= 40 && 20 <= o <= 60 && o <= |packet|
  {
    CopyAt(CopyAt(CopyAt(data, 0, ipOptions), |ipOptions|, packet[20..o]), |ipOptions| + |packet[20..o]|, packet[o..])
  }

  lemma {:induction false} TcpCopies(s: Stack, eth: EthHeader, ip: IPv4Header, ipOptions: seq<byte>,
                                     packet: seq<byte>, data: seq<byte>, r: Reception) returns (o: nat)
    requires |data| == SIZE_DATA && |ipOptions| <= 40
    requires r == RecvTcp(s, eth, ip, ipOptions, packet, data) && r.Handled?
    ensures 20 <= o <= 60 && o <= |packet| && r.data == Copies(data, ipOptions, packet, o)
  {
    OffsetByte(DecodeTcp(packet), packet);
    o := packet[12] / 16 * 4;
  }

  lemma {:induction false} OptionsAndPayload(f: seq<byte>, t: nat, end: nat, o: nat, data: seq<byte>)
    requires |data| == SIZE_DATA && 34 <= t <= 74 && 20 <= o <= 60 && t + o <= end <= |f|
    ensures var packet := f[t..end];
            var all := f[34..t] + f[t + 20..end];
            Copies(data, f[34..t], packet, o)
            == if |all| <= SIZE_DATA then all + data[|all|..] else all[..SIZE_DATA]
  {
    var packet := f[t..end];
    PartsOfFrame(f, t, end, o);
    CopiedInTurn(data, f[34..t], packet[20..o], packet[o..]);
    Concat3(f[34..t], packet[20..o], packet[o..]);
  }

  lemma {:induction false} CopiedInTurn(data: seq<byte>, a: seq<byte>, b: seq<byte>, c: seq<byte>)
    requires |data| == SIZE_DATA && |a| + |b| <= SIZE_DATA
    ensures var d := CopyAt(CopyAt(CopyAt(data, 0, a), |a|, b), |a| + |b|, c);
            var all := a + b + c;
            if |all| <= SIZE_DATA then d == all + data[|all|..] else d == all[..SIZE_DATA]
  {
    var d1 := CopyAt(data, 0, a);
    assert d1 == a + data[|a|..];
    var d2 := CopyAt(d1, |a|, b);
    assert d2 == a + b + data[|a| + |b|..];
    var c' := c[..Min(|c|, SIZE_DATA - |a| - |b|)];
    assert CopyAt(d2, |a| + |b|, c) == a + b + c' + data[|a| + |b| + |c'|..];
  }
}
