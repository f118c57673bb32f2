/** Packets and the receiving stack in the form the program has: objects whose methods fill header fields
    and copy bytes into buffers. Proved against the functions of module Wire. */
module Packets {
  import opened Segments
  import opened Rings
  import opened Checksum
  import opened Headers
  import opened Wire

  class TCPPacket {
    var h: PacketHeaders
    const data: array<byte>

    ghost predicate Valid() {
      data.Length == SIZE_DATA
    }

    constructor (h0: PacketHeaders)
      ensures Valid() && h == h0 && fresh(data)
    {
      h := h0;
      data := new byte[SIZE_DATA];
    }

    method CalculateHeaders(seg: Segment, payload: seq<byte>, id: u16)
      requires seg.dataLen == |payload|
      modifies this
      ensures |payload| <= 0x1_0000 ==> h == Calculated(old(h), seg, payload, id)
    {
      var eth, ip, tcp := h.eth, h.ip, h.tcp;
      eth := eth.(etherType := ETHERTYPE_IPV4);
      ip := ip.(protocol := PROTOCOL_TCP, ttl := 64, id := id, verIhl := 5,
                totalLength := (20 + 20 + |payload|) % 0x1_0000, flags := 0);
      var sum := CalculateIpChecksum(ip);
      ip := ip.(checksum := sum);
      tcp := TCPHeader(tcp.srcPort, tcp.dstPort, seg.seqno, seg.ackno, 0, seg.wnd % 0x1_0000, 0, 0);
      tcp := tcp.SetFlags(seg.flags);
      tcp := tcp.SetOffset(5);
      sum := CalculateTcpChecksum(tcp, ip, [], payload);
      tcp := tcp.(checksum := sum);
      h := PacketHeaders(eth, ip, tcp);
    }

    method PutHeaders(b: array<byte>)
      requires b.Length >= SIZE_HEADERS && h.ip.Ihl() == 5 && h.tcp.Offset() == 5
      modifies b
      ensures b[..] == HeaderBytes(h) + old(b[SIZE_HEADERS..])
    {
      Overwrite(b, 0, EthBytes(h.eth));
      Overwrite(b, SIZE_ETHERNET, IpBytes(h.ip));
      Overwrite(b, SIZE_ETHERNET + SIZE_IPV4, TcpBytes(h.tcp));
      ThreePuts(old(b[..]), EthBytes(h.eth), IpBytes(h.ip), TcpBytes(h.tcp));
    }

    method CopyData(at: nat, src: seq<byte>) returns (n: nat)
      requires Valid() && at <= SIZE_DATA
      modifies data
      ensures n == Min(|src|, SIZE_DATA - at) && data[..] == CopyAt(old(data[..]), at, src)
    {
      n := Min(|src|, SIZE_DATA - at);
      Overwrite(data, at, src[..n]);
    }

    function Payload(): seq<byte>
      requires Valid()
      reads this, data
    {
      PayloadOf(h, data[..])
    }
  }

  method Overwrite(b: array<byte>, at: nat, src: seq<byte>)
    requires at + |src| <= b.Length
    modifies b
    ensures b[..] == Put(old(b[..]), at, src)
  {
    forall i | 0 <= i < |src| {
      b[at + i] := src[i];
    }
  }

  lemma {:induction false} PutAfter(d: seq<byte>, x: seq<byte>, y: seq<byte>)
    requires |x| + |y| <= |d|
    ensures Put(x + d[|x|..], |x|, y) == (x + y) + d[|x| + |y|..]
  {
    assert (x + d[|x|..])[|x| + |y|..] == d[|x| + |y|..];
  }

  lemma {:induction false} ThreePuts(d: seq<byte>, x: seq<byte>, y: seq<byte>, z: seq<byte>)
    requires |x| + |y| + |z| <= |d|
    ensures Put(Put(Put(d, 0, x), |x|, y), |x| + |y|, z) == x + y + z + d[|x| + |y| + |z|..]
  {
    assert Put(d, 0, x) == x + d[|x|..];
    PutAfter(d, x, y);
    PutAfter(d, x + y, z);
  }

  class PortStack {
    const cfg: Stack
    const auxTcp: TCPPacket

    ghost predicate Valid() {
      auxTcp.Valid()
    }

    constructor (cfg: Stack, h0: PacketHeaders)
      ensures Valid() && this.cfg == cfg && fresh(auxTcp) && fresh(auxTcp.data)
    {
      this.cfg := cfg;
      auxTcp := new TCPPacket(h0);
    }

    /** The IPv4 TCP branch: what reaches a handler is in the packet buffer. */
    method RecvEth(frame: seq<byte>) returns (r: Reception)
      requires Valid()
      modifies auxTcp, auxTcp.data
      ensures r == Wire.RecvEth(cfg, frame, old(auxTcp.data[..]))
      ensures r.Handled? ==> auxTcp.h == r.h && auxTcp.data[..] == r.data && auxTcp.Payload() == PayloadOf(r.h, r.data)
    {
      if |frame| < SIZE_ETHERNET + SIZE_IPV4 {
        return Refused(PacketSmall);
      } else if |frame| > cfg.mtu {
        return Refused(ExceedsMTU);
      }
      var eth := DecodeEth(frame);
      if eth.dst != BROADCAST && eth.dst != cfg.mac {
        return Ignored;
      } else if eth.etherType == ETHERTYPE_ARP {
        return Elsewhere;
      } else if eth.etherType != ETHERTYPE_IPV4 {
        return Ignored;
      }
      var ip := DecodeIp(frame[SIZE_ETHERNET..]);
      var offset := SIZE_ETHERNET + ip.Ihl() * 4;
      var end := Add16(SIZE_ETHERNET, ip.totalLength);
      if ip.Version() != 4 {
        return Refused(BadVersion);
      } else if ip.Ihl() * 4 < SIZE_IPV4 {
        return Refused(BadIHL);
      } else if cfg.addr != ip.dst && cfg.addr != NO_ADDR {
        return Ignored;
      } else if offset > end || offset > |frame| || end > |frame| {
        return Refused(BadTotalLength);
      } else if end > cfg.mtu {
        return Refused(ExceedsMTU);
      } else if ip.protocol == PROTOCOL_UDP {
        return Elsewhere;
      } else if ip.protocol != PROTOCOL_TCP {
        return Refused(UnknownProtocol);
      }
      r := Admit(eth, ip, frame[SIZE_ETHERNET + SIZE_IPV4..offset], frame[offset..end]);
    }

    method Admit(eth: EthHeader, ip: IPv4Header, ipOptions: seq<byte>, packet: seq<byte>) returns (r: Reception)
      requires Valid() && |ipOptions| <= 40 && |packet| <= 0xffff
      modifies auxTcp, auxTcp.data
      ensures r == RecvTcp(cfg, eth, ip, ipOptions, packet, old(auxTcp.data[..]))
      ensures r.Handled? ==> auxTcp.h == r.h && auxTcp.data[..] == r.data
    {
      if cfg.ports == {} {
        return Ignored;
      } else if |packet| < SIZE_TCP {
        return Refused(TooShort);
      }
      var tcp := DecodeTcp(packet);
      var offset := tcp.OffsetInBytes();
      if tcp.dstPort == 0 || tcp.srcPort == 0 {
        return Refused(ZeroPort);
      } else if offset < SIZE_TCP || offset > |packet| {
        return Refused(BadTCPOffset);
      }
      var options, payload := packet[SIZE_TCP..offset], packet[offset..];
      var gotSum := CalculateTcpChecksum(tcp, ip, options, payload);
      if gotSum != tcp.checksum {
        return Refused(BadChecksum);
      } else if tcp.dstPort !in cfg.ports {
        return Ignored;
      }
      auxTcp.h := PacketHeaders(eth, ip, tcp);
      var n := auxTcp.CopyData(0, ipOptions);
      var n2 := auxTcp.CopyData(n, options);
      n := n + n2;
      n2 := auxTcp.CopyData(n, payload);
      return Handled(auxTcp.h, auxTcp.data[..]);
    }
  }
}
