/** Two established connections over lossless FIFO links: end to end, bytes out equal bytes in. */
module Stream {
  import opened Segments
  import opened Control
  import Ideal
  import opened Refinement
  import opened Flows
  import opened Pair
  import opened Rings
  import opened Conns

  datatype Pkt = Pkt(seg: Segment, payload: seq<byte>)

  /** The connections, the packets in flight, and the history of what users wrote and read. */
  datatype Link = Link(a: Conn, b: Conn, ab: seq<Pkt>, ba: seq<Pkt>,
                       wroteA: seq<byte>, readB: seq<byte>, wroteB: seq<byte>, readA: seq<byte>)

  datatype Side = SideA | SideB

  datatype Event =
    | Write(side: Side, b: seq<byte>)
    | Read(side: Side, n: nat)
    | Send(side: Side, room: nat)
    | Recv(side: Side)

  /** A run stops when a segment is refused, a received payload does not fit, or the code panics. */
  datatype Outcome = Going(link: Link) | Broken

  /** The same link with the sides exchanged. */
  function Swap(k: Link): Link {
    Link(k.b, k.a, k.ba, k.ab, k.wroteB, k.readA, k.wroteA, k.readB)
  }

  function SwapOutcome(o: Outcome): Outcome {
    match o
    case Going(k) => Going(Swap(k))
    case Broken => Broken
  }

  /** What side A sent goes into flight. */
  function Transmit(k: Link, r: (Conn, SendEvent)): Outcome {
    match r.1
    case Yielded => Going(k.(a := r.0))
    case Emitted(seg, payload) => Going(k.(a := r.0, ab := k.ab + [Pkt(seg, payload)]))
    case _ => Broken
  }

  /** The four things that can happen at side A. */
  function NextA(k: Link, e: Event): Outcome
    requires k.a.Valid()
  {
    match e
    case Write(_, b) =>
      var a := WriteTx(k.a, b);
      Going(k.(a := a, wroteA := if a == k.a then k.wroteA else k.wroteA + b))
    case Read(_, n) =>
      var (a, bytes) := ReadRx(k.a, n);
      Going(k.(a := a, readA := k.readA + bytes))
    case Send(_, room) => Transmit(k, SendTx(k.a, room))
    case Recv(_) =>
      if k.ba == [] then Going(k)
      else
        var (a, event) := RecvRx(k.a, k.ba[0].seg, k.ba[0].payload);
        if event == Delivered then Going(k.(a := a, ba := k.ba[1..])) else Broken
  }

  function Next(k: Link, e: Event): Outcome
    requires k.a.Valid() && k.b.Valid()
  {
    if e.side.SideA? then NextA(k, e) else SwapOutcome(NextA(Swap(k), e))
  }

  function Payloads(q: seq<Pkt>): seq<byte> {
    if q == [] then [] else q[0].payload + Payloads(q[1..])
  }

  /** One direction: what was written is what was read, then what the receiver buffers, then what is
      in flight, then what the sender buffers. */
  predicate Conserved(wrote: seq<byte>, read: seq<byte>, to: Conn, q: seq<Pkt>, from: Conn) {
    wrote == read + to.rx + Payloads(q) + from.tx
  }

  predicate Carries(q: seq<Pkt>, s: seq<Ideal.Seg>) {
    && |q| == |s|
    && forall i :: 0 <= i < |q| ==> q[i].seg == WrapSeg(s[i]) && |q[i].payload| == s[i].dataLen
  }

  predicate Plain(c: Conn, x: Ideal.IBlock) {
    && c.Valid() && c.rxCap <= MAX_WINDOW && !c.closing
    && c.scb == WrapBlock(x) && x.state.Established? && Quiet(x)
  }

  /** The link in unbounded positions; the edge each side advertised last is within the space its
      receive ring really has. */
  ghost predicate Good(k: Link, l: INet) {
    && Plain(k.a, l.a) && Plain(k.b, l.b)
    && Carries(k.ab, l.ab) && Carries(k.ba, l.ba)
    && Flow(l.a, l.b, l.ab, l.ackA, l.edgeA) && Flow(l.b, l.a, l.ba, l.ackB, l.edgeB)
    && l.edgeA <= l.a.rcvNxt + k.a.Free() && l.edgeB <= l.b.rcvNxt + k.b.Free()
    && Conserved(k.wroteA, k.readB, k.b, k.ab, k.a) && Conserved(k.wroteB, k.readA, k.a, k.ba, k.b)
  }

  function SwapNet(l: INet): INet {
    INet(l.b, l.a, l.ba, l.ab, l.ackB, l.edgeB, l.ackA, l.edgeA)
  }

  lemma {:induction false} PayloadsAppend(q: seq<Pkt>, p: Pkt)
    ensures Payloads(q + [p]) == Payloads(q) + p.payload
  {
    if q == [] {
      assert q + [p] == [p];
      assert Payloads([p][1..]) == [];
    } else {
      assert (q + [p])[1..] == q[1..] + [p];
      PayloadsAppend(q[1..], p);
    }
  }

  /** Sending from a connection in step with its peer: nothing, or the next bytes of its transmit
      queue; never a failure or a panic. */
  lemma {:induction false} SendWorks(c: Conn, x: Ideal.IBlock, y: Ideal.IBlock, q: seq<Ideal.Seg>, ack: int, edge: int,
                                     room: nat)
    returns (sent: bool, x': Ideal.IBlock, s: Ideal.Seg)
    requires Plain(c, x) && Flow(x, y, q, ack, edge) && edge <= x.rcvNxt + c.Free()
    ensures sent ==> s.dataLen <= |c.tx| && s.ackno == x.rcvNxt
    ensures SendTx(c, room) == if sent then (c.(scb := WrapBlock(x'), tx := c.tx[s.dataLen..]),
                                             Emitted(WrapSeg(s), c.tx[..s.dataLen]))
                               else (c.(scb := WrapBlock(x')), Yielded)
    ensures Quiet(x') && x'.state.Established? && Known(x') == Known(x)
    ensures !sent ==> Flow(x', y, q, ack, edge)
    ensures sent ==> Flow(x', y, q + [s], x.rcvNxt, x.rcvNxt + c.Free())
  {
    var n := Min(|c.tx|, room);
    sent, x', s := EmitRefined(x, y, q, ack, edge, c.Free(), n);
  }

  /** Receiving the packet at the head of the queue: its payload is appended to the receive queue. */
  lemma {:induction false} RecvWorks(c: Conn, x: Ideal.IBlock, y: Ideal.IBlock, q: seq<Ideal.Seg>, ack: int, edge: int,
                                     q': seq<Ideal.Seg>, ack': int, edge': int, p: Pkt)
    returns (y': Ideal.IBlock)
    requires Plain(c, y) && x.state.Established? && Quiet(x)
    requires Flow(x, y, q, ack, edge) && Flow(y, x, q', ack', edge') && q != []
    requires edge' <= y.rcvNxt + c.Free()
    requires p.seg == WrapSeg(q[0]) && |p.payload| == q[0].dataLen
    ensures RecvRx(c, p.seg, p.payload) == (c.(scb := WrapBlock(y'), rx := c.rx + p.payload), Delivered)
    ensures |c.rx + p.payload| <= c.rxCap
    ensures y'.rcvNxt == y.rcvNxt + |p.payload| && y'.nxt == y.nxt && y'.state.Established?
    ensures Quiet(y') && Flow(x, y', q[1..], ack, edge) && Flow(y', x, q', ack', edge')
  {
    HeadFits(x, y, q, ack, edge, q', ack', edge');
    y' := Deliver(x, y, q, ack, edge, q', ack', edge');
    RecvRefines(y, q[0]);
    if p.payload == [] {
      assert c.rx + p.payload == c.rx;
    }
  }

  lemma {:induction false} Sent(k: Link, l: INet, x': Ideal.IBlock, s: Ideal.Seg)
    requires Good(k, l) && s.dataLen <= |k.a.tx|
    requires Quiet(x') && x'.state.Established? && Known(x') == Known(l.a)
    requires Flow(x', l.b, l.ab + [s], l.a.rcvNxt, l.a.rcvNxt + k.a.Free())
    ensures Good(k.(a := k.a.(scb := WrapBlock(x'), tx := k.a.tx[s.dataLen..]),
                    ab := k.ab + [Pkt(WrapSeg(s), k.a.tx[..s.dataLen])]),
                 l.(a := x', ab := l.ab + [s], ackA := l.a.rcvNxt, edgeA := l.a.rcvNxt + k.a.Free()))
  {
    PayloadsAppend(k.ab, Pkt(WrapSeg(s), k.a.tx[..s.dataLen]));
    assert k.a.tx[..s.dataLen] + k.a.tx[s.dataLen..] == k.a.tx;
  }

  lemma {:induction false} TransmitKeeps(k: Link, l: INet, r: (Conn, SendEvent), sent: bool, x': Ideal.IBlock,
                                         s: Ideal.Seg)
    returns (l': INet)
    requires Good(k, l) && Quiet(x') && x'.state.Established? && Known(x') == Known(l.a)
    requires sent ==> s.dataLen <= |k.a.tx| && Flow(x', l.b, l.ab + [s], l.a.rcvNxt, l.a.rcvNxt + k.a.Free())
    requires !sent ==> Flow(x', l.b, l.ab, l.ackA, l.edgeA)
    requires r == if sent then (k.a.(scb := WrapBlock(x'), tx := k.a.tx[s.dataLen..]),
                                Emitted(WrapSeg(s), k.a.tx[..s.dataLen]))
                  else (k.a.(scb := WrapBlock(x')), Yielded)
    ensures Transmit(k, r).Going? && Good(Transmit(k, r).link, l')
  {
    if sent {
      Sent(k, l, x', s);
      l' := l.(a := x', ab := l.ab + [s], ackA := l.a.rcvNxt, edgeA := l.a.rcvNxt + k.a.Free());
    } else {
      l' := l.(a := x');
    }
  }

  lemma {:induction false} SendKeeps(k: Link, l: INet, e: Event) returns (l': INet)
    requires Good(k, l) && e.Send?
    ensures NextA(k, e).Going? && Good(NextA(k, e).link, l')
  {
    var sent, x', s := SendWorks(k.a, l.a, l.b, l.ab, l.ackA, l.edgeA, e.room);
    l' := TransmitKeeps(k, l, SendTx(k.a, e.room), sent, x', s);
  }

  lemma {:induction false} Received(k: Link, l: INet, y': Ideal.IBlock)
    requires Good(k, l) && k.ba != []
    requires |k.a.rx + k.ba[0].payload| <= k.a.rxCap
    requires Quiet(y') && y'.state.Established? && y'.rcvNxt == l.a.rcvNxt + |k.ba[0].payload|
    requires Flow(l.b, y', l.ba[1..], l.ackB, l.edgeB) && Flow(y', l.b, l.ab, l.ackA, l.edgeA)
    ensures Good(k.(a := k.a.(scb := WrapBlock(y'), rx := k.a.rx + k.ba[0].payload), ba := k.ba[1..]),
                 l.(a := y', ba := l.ba[1..]))
  {
  }

  lemma {:induction false} RecvKeeps(k: Link, l: INet, e: Event) returns (l': INet)
    requires Good(k, l) && e.Recv?
    ensures NextA(k, e).Going? && Good(NextA(k, e).link, l')
  {
    l' := l;
    if k.ba != [] {
      var y' := RecvWorks(k.a, l.b, l.a, l.ba, l.ackB, l.edgeB, l.ab, l.ackA, l.edgeA, k.ba[0]);
      Received(k, l, y');
      l' := l.(a := y', ba := l.ba[1..]);
    }
  }

  lemma {:induction false} WriteKeeps(k: Link, l: INet, b: seq<byte>)
    requires Good(k, l) && |b| <= k.a.txCap - |k.a.tx|
    ensures Good(k.(a := k.a.(tx := k.a.tx + b), wroteA := k.wroteA + b), l)
  {
  }

  lemma {:induction false} ReadKeeps(k: Link, l: INet, n: nat)
    requires Good(k, l) && n > 0
    ensures Good(k.(a := ReadRx(k.a, n).0, readA := k.readA + ReadRx(k.a, n).1), l)
  {
    ReadKeepsBytes(k.a, n);
    var (a, bytes) := ReadRx(k.a, n);
    assert k.readA + k.a.rx == k.readA + bytes + a.rx;
  }

  /** Whatever happens at side A keeps the link good. */
  lemma {:induction false} KeepsA(k: Link, l: INet, e: Event) returns (l': INet)
    requires Good(k, l) && (e.Read? ==> e.n > 0)
    ensures NextA(k, e).Going? && Good(NextA(k, e).link, l')
  {
    match e {
      case Write(_, b) =>
        l' := l;
        if |b| <= k.a.txCap - |k.a.tx| {
          WriteKeeps(k, l, b);
          assert b == [] ==> k.a.tx + b == k.a.tx && k.wroteA + b == k.wroteA;
        }
      case Read(_, n) =>
        l' := l;
        ReadKeeps(k, l, n);
      case Send(_, _) =>
        l' := SendKeeps(k, l, e);
      case Recv(_) =>
        l' := RecvKeeps(k, l, e);
    }
  }

  lemma {:induction false} Keeps(k: Link, l: INet, e: Event) returns (l': INet)
    requires Good(k, l) && (e.Read? ==> e.n > 0)
    ensures Next(k, e).Going? && Good(Next(k, e).link, l')
  {
    if e.side.SideA? {
      l' := KeepsA(k, l, e);
    } else {
      assert Good(Swap(k), SwapNet(l));
      l' := KeepsA(Swap(k), SwapNet(l), e);
      l' := SwapNet(l');
    }
  }

  // ---------------------------------------------------------------------------------------------
  // The result

  /** Two established connections in step, with empty rings, each having advertised no more than the
      capacity of its receive ring. */
  predicate Fresh(k: Link) {
    && InStep(Net(k.a.scb, k.b.scb, [], [])) && k.ab == [] && k.ba == []
    && k.a.tx == k.a.rx == k.b.tx == k.b.rx == [] && !k.a.closing && !k.b.closing
    && k.a.scb.rcv.wnd <= k.a.rxCap <= MAX_WINDOW && k.b.scb.rcv.wnd <= k.b.rxCap <= MAX_WINDOW
    && k.wroteA == k.readA == k.wroteB == k.readB == []
  }

  /** A block whose positions are its own 32-bit values. */
  function Lift(b: Block): (x: Ideal.IBlock)
    ensures WrapBlock(x) == b
  {
    Ideal.IBlock(b.snd.iss, b.snd.una, b.snd.nxt, b.snd.wnd, b.rcv.irs, b.rcv.nxt, b.rcv.wnd,
                 b.rstPtr, b.pending0, b.pending1, b.state, b.challengeAck)
  }

  lemma {:induction false} FreshGood(k: Link) returns (l: INet)
    requires Fresh(k)
    ensures Good(k, l)
  {
    var a, b := Lift(k.a.scb), Lift(k.b.scb);
    l := INet(a, b, [], [], a.rcvNxt, a.rcvNxt + a.rcvWnd, b.rcvNxt, b.rcvNxt + b.rcvWnd);
    assert Flow(a, b, [], l.ackA, l.edgeA) && Flow(b, a, [], l.ackB, l.edgeB);
  }

  ghost predicate Sound(k: Link) {
    exists l: INet :: Good(k, l)
  }

  /** The run of a list of events from k ends in k'. */
  ghost predicate Runs(k: Link, events: seq<Event>, k': Link)
    decreases |events|
  {
    if events == [] then k == k'
    else
      && k.a.Valid() && k.b.Valid()
      && Next(k, events[0]).Going? && Runs(Next(k, events[0]).link, events[1..], k')
  }

  lemma {:induction false} RunsSound(k: Link, events: seq<Event>) returns (k': Link)
    requires Sound(k) && forall i :: 0 <= i < |events| && events[i].Read? ==> events[i].n > 0
    ensures Runs(k, events, k') && Sound(k')
    decreases |events|
  {
    k' := k;
    if events != [] {
      var l: INet :| Good(k, l);
      var l' := Keeps(k, l, events[0]);
      k' := RunsSound(Next(k, events[0]).link, events[1..]);
    }
  }

  /** End to end: every list of events (reads having a non-empty destination) runs to its end from a fresh
      pair: no segment is refused, no payload finds the receive ring full, nothing panics. Then, in both
      directions, the bytes written are the bytes read, followed by those buffered at the receiver, those in
      flight and those buffered at the sender. */
  lemma {:induction false} EndToEnd(k: Link, events: seq<Event>) returns (k': Link)
    requires Fresh(k) && forall i :: 0 <= i < |events| && events[i].Read? ==> events[i].n > 0
    ensures Runs(k, events, k')
    ensures Conserved(k'.wroteA, k'.readB, k'.b, k'.ab, k'.a) && Conserved(k'.wroteB, k'.readA, k'.a, k'.ba, k'.b)
  {
    var l := FreshGood(k);
    k' := RunsSound(k, events);
  }
}
