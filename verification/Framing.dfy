/** The stream over frames: the end-to-end result with the packets in flight as the bytes of Ethernet frames, made by
    one stack and taken apart by the other. */
module Framing {
  import opened SeqNum
  import opened Segments
  import opened Rings
  import opened Checksum
  import opened Conns
  import opened Wire
  import Pair
  import Flows
  import opened Stream

  type Frame = seq<byte>

  datatype Taken = Got(p: Pkt) | NotTaken

  /** How one side makes frames of segments, given an identification number and padding, and how the other takes
      them apart, given what its packet buffer held before. */
  datatype Codec = Codec(make: (Pkt, u16, seq<byte>) -> Frame, take: (Frame, seq<byte>) -> Taken)

  /** Two connections and the frames in flight; the packet queues of the link itself stay empty. */
  datatype Framed = Framed(link: Link, ab: seq<Frame>, ba: seq<Frame>)

  datatype FramedOutcome = OnWire(f: Framed) | Lost

  /** An event, the identification number and padding of a frame it sends, and what the packet buffer held before a
      frame it receives. */
  datatype WireEvent = WireEvent(e: Event, id: u16, padding: seq<byte>, data: seq<byte>)

  function SwapFramed(f: Framed): Framed {
    Framed(Swap(f.link), f.ba, f.ab)
  }

  function AfterSend(f: Framed, r: (Conn, SendEvent), w: WireEvent, out: Codec): FramedOutcome {
    match r.1
    case Yielded => OnWire(f.(link := f.link.(a := r.0)))
    case Emitted(seg, payload) =>
      OnWire(f.(link := f.link.(a := r.0), ab := f.ab + [out.make(Pkt(seg, payload), w.id, w.padding)]))
    case _ => Lost
  }

  function AfterRecv(f: Framed, r: (Conn, RecvEvent)): FramedOutcome
    requires f.ba != []
  {
    if r.1.Delivered? then OnWire(f.(link := f.link.(a := r.0), ba := f.ba[1..])) else Lost
  }

  function TakeFrame(f: Framed, t: Taken): FramedOutcome
    requires f.ba != [] && f.link.a.Valid()
  {
    match t
    case Got(p) => AfterRecv(f, RecvRx(f.link.a, p.seg, p.payload))
    case NotTaken => Lost
  }

  /** What happens at side A: its frames go out by one codec and come in by the other. */
  function FramedA(f: Framed, w: WireEvent, out: Codec, back: Codec): FramedOutcome
    requires f.link.a.Valid()
  {
    match w.e
    case Write(_, _) => OnWire(f.(link := NextA(f.link, w.e).link))
    case Read(_, _) => OnWire(f.(link := NextA(f.link, w.e).link))
    case Send(_, room) => AfterSend(f, SendTx(f.link.a, room), w, out)
    case Recv(_) => if f.ba == [] then OnWire(f) else TakeFrame(f, back.take(f.ba[0], w.data))
  }

  function FramedNext(f: Framed, w: WireEvent, ab: Codec, ba: Codec): FramedOutcome
    requires f.link.a.Valid() && f.link.b.Valid()
  {
    if w.e.side.SideA? then FramedA(f, w, ab, ba)
    else match FramedA(SwapFramed(f), w, ba, ab)
      case OnWire(g) => OnWire(SwapFramed(g))
      case Lost => Lost
  }

  // ---------------------------------------------------------------------------------------------
  // Frames stand for packets

  /** Packets that fit a frame with the given room for payload and padding. */
  predicate Sized(p: Pkt, padding: seq<byte>, limit: nat) {
    && p.seg.dataLen == |p.payload| <= SIZE_DATA && p.seg.wnd <= 0xffff
    && |p.payload| + |padding| <= limit
  }

  /** Every frame made from a packet that fits gives it back, whatever the packet buffer held. */
  ghost predicate Faithful(c: Codec, limit: nat) {
    forall p: Pkt, id: u16, padding: seq<byte>, data: seq<byte> ::
      Sized(p, padding, limit) && |data| == SIZE_DATA ==> c.take(c.make(p, id, padding), data) == Got(p)
  }

  ghost predicate Delivers(c: Codec, frame: Frame, p: Pkt) {
    forall data: seq<byte> :: |data| == SIZE_DATA ==> c.take(frame, data) == Got(p)
  }

  ghost predicate Stand(c: Codec, frames: seq<Frame>, q: seq<Pkt>) {
    |frames| == |q| && forall i :: 0 <= i < |q| ==> Delivers(c, frames[i], q[i])
  }

  /** The frames in flight stand for the packets in flight of k. */
  ghost predicate Shows(f: Framed, k: Link, ab: Codec, ba: Codec) {
    f.link == k.(ab := [], ba := []) && Stand(ab, f.ab, k.ab) && Stand(ba, f.ba, k.ba)
  }

  /** What a connection in step sends fits the response and the 16-bit window field. */
  lemma {:induction false} SentFits(k: Link, l: Pair.INet, room: nat)
    requires Good(k, l)
    ensures SendTx(k.a, room).1.Emitted? ==>
              var e := SendTx(k.a, room).1;
              e.seg.dataLen == |e.payload| <= room && e.seg.wnd <= 0xffff
  {
    var n := Min(|k.a.tx|, room);
    var sent, x', s := Flows.EmitRefined(l.a, l.b, l.ab, l.ackA, l.edgeA, k.a.Free(), n);
  }

  lemma {:induction false} StandAppend(c: Codec, frames: seq<Frame>, q: seq<Pkt>, p: Pkt, id: u16,
                                       padding: seq<byte>, limit: nat)
    requires Faithful(c, limit) && Stand(c, frames, q) && Sized(p, padding, limit)
    ensures Stand(c, frames + [c.make(p, id, padding)], q + [p])
  {
    assert Delivers(c, c.make(p, id, padding), p);
  }

  lemma {:induction false} SendShows(f: Framed, k: Link, r: (Conn, SendEvent), w: WireEvent, out: Codec, back: Codec,
                                     limit: nat)
    requires Shows(f, k, out, back) && Faithful(out, limit) && Transmit(k, r).Going?
    requires r.1.Emitted? ==> Sized(Pkt(r.1.seg, r.1.payload), w.padding, limit)
    ensures var o := AfterSend(f, r, w, out);
            o.OnWire? && Shows(o.f, Transmit(k, r).link, out, back)
  {
    if r.1.Emitted? {
      StandAppend(out, f.ab, k.ab, Pkt(r.1.seg, r.1.payload), w.id, w.padding, limit);
    }
  }

  lemma {:induction false} RecvShows(f: Framed, k: Link, a: Conn, out: Codec, back: Codec)
    requires Shows(f, k, out, back) && k.ba != []
    ensures var o := AfterRecv(f, (a, Delivered));
            o.OnWire? && Shows(o.f, k.(a := a, ba := k.ba[1..]), out, back)
  {
  }

  lemma {:induction false} HeadTaken(f: Framed, k: Link, data: seq<byte>, out: Codec, back: Codec)
    requires Shows(f, k, out, back) && k.ba != [] && |data| == SIZE_DATA
    ensures f.ba != [] && back.take(f.ba[0], data) == Got(k.ba[0])
  {
    assert Delivers(back, f.ba[0], k.ba[0]);
  }

  /** What a wire event asks of the frame it sends and the buffer it receives into. */
  predicate Fits(w: WireEvent, limit: nat) {
    && |w.data| == SIZE_DATA && (w.e.Read? ==> w.e.n > 0)
    && (w.e.Send? ==> w.e.room <= SIZE_DATA && w.e.room + |w.padding| <= limit)
  }

  /** A step over frames is the step over packets. */
  lemma {:induction false} ShowsA(f: Framed, k: Link, l: Pair.INet, w: WireEvent, out: Codec, back: Codec, limit: nat)
    requires Good(k, l) && Shows(f, k, out, back) && Faithful(out, limit) && Fits(w, limit) && NextA(k, w.e).Going?
    ensures var o := FramedA(f, w, out, back);
            o.OnWire? && Shows(o.f, NextA(k, w.e).link, out, back)
  {
    match w.e {
      case Write(_, _) =>
      case Read(_, _) =>
      case Send(_, room) =>
        SentFits(k, l, room);
        SendShows(f, k, SendTx(k.a, room), w, out, back, limit);
      case Recv(_) =>
        if k.ba != [] {
          HeadTaken(f, k, w.data, out, back);
          RecvShows(f, k, RecvRx(k.a, k.ba[0].seg, k.ba[0].payload).0, out, back);
        }
    }
  }

  lemma {:induction false} StepShows(f: Framed, k: Link, w: WireEvent, ab: Codec, ba: Codec, limit: nat)
    returns (k': Link)
    requires Sound(k) && Shows(f, k, ab, ba) && Faithful(ab, limit) && Faithful(ba, limit) && Fits(w, limit)
    ensures f.link.a.Valid() && f.link.b.Valid()
    ensures FramedNext(f, w, ab, ba).OnWire? && Sound(k') && Shows(FramedNext(f, w, ab, ba).f, k', ab, ba)
  {
    var l: Pair.INet :| Good(k, l);
    if w.e.side.SideA? {
      var l' := KeepsA(k, l, w.e);
      ShowsA(f, k, l, w, ab, ba, limit);
      k' := NextA(k, w.e).link;
    } else {
      SwapGood(k, l);
      var l' := KeepsA(Swap(k), SwapNet(l), w.e);
      ShowsA(SwapFramed(f), Swap(k), SwapNet(l), w, ba, ab, limit);
      k' := Swap(NextA(Swap(k), w.e).link);
      SwapGood(NextA(Swap(k), w.e).link, l');
    }
  }

  lemma {:induction false} SwapGood(k: Link, l: Pair.INet)
    requires Good(k, l)
    ensures Good(Swap(k), SwapNet(l))
  {
  }

  ghost predicate FramedRuns(f: Framed, events: seq<WireEvent>, ab: Codec, ba: Codec, f': Framed)
    decreases |events|
  {
    if events == [] then f == f'
    else
      && f.link.a.Valid() && f.link.b.Valid() && FramedNext(f, events[0], ab, ba).OnWire?
      && FramedRuns(FramedNext(f, events[0], ab, ba).f, events[1..], ab, ba, f')
  }

  lemma {:induction false} RunShows(f: Framed, k: Link, events: seq<WireEvent>, ab: Codec, ba: Codec, limit: nat)
    returns (f': Framed, k': Link)
    requires Sound(k) && Shows(f, k, ab, ba) && Faithful(ab, limit) && Faithful(ba, limit)
    requires forall i :: 0 <= i < |events| ==> Fits(events[i], limit)
    ensures FramedRuns(f, events, ab, ba, f') && Sound(k') && Shows(f', k', ab, ba)
    decreases |events|
  {
    f', k' := f, k;
    if events != [] {
      var k1 := StepShows(f, k, events[0], ab, ba, limit);
      f', k' := RunShows(FramedNext(f, events[0], ab, ba).f, k1, events[1..], ab, ba, limit);
    }
  }

  // ---------------------------------------------------------------------------------------------
  // The wire of this stack

  /** What a side puts into its headers, and the stack at the other end. */
  datatype Route = Route(h: PacketHeaders, to: Stack)
  {
    /** The packets are addressed to an open port of that stack. */
    predicate Valid() {
      && (h.eth.dst == to.mac || h.eth.dst == BROADCAST) && (h.ip.dst == to.addr || to.addr == NO_ADDR)
      && h.tcp.srcPort != 0 && h.tcp.dstPort != 0 && h.tcp.dstPort in to.ports
    }
  }

  function MakeFrame(r: Route, p: Pkt, id: u16, padding: seq<byte>): Frame {
    if p.seg.dataLen != |p.payload| then []
    else HeaderBytes(Calculated(r.h, p.seg, p.payload, id)) + p.payload + padding
  }

  function OpenFrame(s: Stack, frame: Frame, data: seq<byte>): Taken {
    if |data| != SIZE_DATA then NotTaken
    else match RecvEth(s, frame, data)
      case Handled(h, d) => if |d| == SIZE_DATA then PacketOf(h, PayloadOf(h, d)) else NotTaken
      case _ => NotTaken
  }

  function PacketOf(h: PacketHeaders, payload: seq<byte>): Taken {
    if |payload| < MODULUS then Got(Pkt(h.tcp.Segment(|payload|), payload)) else NotTaken
  }

  function CodecOf(r: Route): Codec {
    Codec((p: Pkt, id: u16, padding: seq<byte>) => MakeFrame(r, p, id, padding),
          (frame: Frame, data: seq<byte>) => OpenFrame(r.to, frame, data))
  }

  lemma {:induction false} FrameOpens(r: Route, p: Pkt, id: u16, padding: seq<byte>, data: seq<byte>)
    requires r.Valid() && r.to.mtu >= SIZE_HEADERS && Sized(p, padding, r.to.mtu - SIZE_HEADERS) && |data| == SIZE_DATA
    ensures OpenFrame(r.to, MakeFrame(r, p, id, padding), data) == Got(p)
  {
    WireTransparency(r.h, p.seg, p.payload, id, padding, r.to, data);
  }

  /** Checksums, headers and buffers together give back every packet within the MTU. */
  lemma {:induction false} WireIsFaithful(r: Route, limit: nat)
    requires r.Valid() && SIZE_HEADERS + limit <= r.to.mtu
    ensures Faithful(CodecOf(r), limit)
  {
    var c := CodecOf(r);
    forall p: Pkt, id: u16, padding: seq<byte>, data: seq<byte> | Sized(p, padding, limit) && |data| == SIZE_DATA
      ensures c.take(c.make(p, id, padding), data) == Got(p)
    {
      FrameOpens(r, p, id, padding, data);
    }
  }

  /** End to end over frames: two fresh connections whose stacks are addressed to each other, with any
      identification numbers, padding and leftovers in the packet buffers, and responses within both MTUs. Every list
      of events runs to its end: no frame fails a checksum or is refused, and no segment is. The frames in flight
      stand for packets, and with their payloads nothing is lost, repeated or reordered in either direction. */
  lemma {:induction false} FramedEndToEnd(k: Link, events: seq<WireEvent>, ab: Route, ba: Route, limit: nat)
    returns (f': Framed, qab: seq<Pkt>, qba: seq<Pkt>)
    requires Fresh(k) && ab.Valid() && ba.Valid()
    requires SIZE_HEADERS + limit <= ab.to.mtu && SIZE_HEADERS + limit <= ba.to.mtu
    requires forall i :: 0 <= i < |events| ==> Fits(events[i], limit)
    ensures FramedRuns(Framed(k, [], []), events, CodecOf(ab), CodecOf(ba), f')
    ensures Stand(CodecOf(ab), f'.ab, qab) && Stand(CodecOf(ba), f'.ba, qba)
    ensures Conserved(f'.link.wroteA, f'.link.readB, f'.link.b, qab, f'.link.a)
    ensures Conserved(f'.link.wroteB, f'.link.readA, f'.link.a, qba, f'.link.b)
  {
    WireIsFaithful(ab, limit);
    WireIsFaithful(ba, limit);
    f', qab, qba := AnyFaithfulWire(k, events, CodecOf(ab), CodecOf(ba), limit);
  }

  lemma {:induction false} AnyFaithfulWire(k: Link, events: seq<WireEvent>, ab: Codec, ba: Codec, limit: nat)
    returns (f': Framed, qab: seq<Pkt>, qba: seq<Pkt>)
    requires Fresh(k) && Faithful(ab, limit) && Faithful(ba, limit)
    requires forall i :: 0 <= i < |events| ==> Fits(events[i], limit)
    ensures FramedRuns(Framed(k, [], []), events, ab, ba, f')
    ensures Stand(ab, f'.ab, qab) && Stand(ba, f'.ba, qba)
    ensures Conserved(f'.link.wroteA, f'.link.readB, f'.link.b, qab, f'.link.a)
    ensures Conserved(f'.link.wroteB, f'.link.readA, f'.link.a, qba, f'.link.b)
  {
    var l := FreshGood(k);
    var k';
    f', k' := RunShows(Framed(k, [], []), k, events, ab, ba, limit);
    qab, qba := k'.ab, k'.ba;
  }
}
