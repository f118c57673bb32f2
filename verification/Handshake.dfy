/** Every run of a dialing and a listening connection from Open, with users that write and read from the first moment
    on: the handshake in every interleaving, and the bytes end to end (stacks/tcpconn.go). */
module Handshake {
  import opened SeqNum
  import opened Segments
  import opened Control
  import Ideal
  import opened Refinement
  import opened Flows
  import opened Pair
  import opened Rings
  import opened Conns
  import opened Stream

  /** The link, whether the SYN has gone out, and the bytes of side B that its transmit ring has lost. */
  datatype Dial = Dial(k: Link, synOut: bool, lost: seq<byte>)

  datatype DialOutcome = Dialing(d: Dial) | Failed

  /** What a send takes out of the transmit ring without sending it. */
  function Dropped(c: Conn, r: (Conn, SendEvent)): seq<byte> {
    if r.1.Emitted? && r.1.payload + r.0.tx != c.tx then c.tx else []
  }

  /** What happens at side A, which dials: while it waits for its answer it sends its SYN once. */
  function DialA(d: Dial, e: Event): DialOutcome
    requires d.k.a.Valid()
  {
    if e.Send? && d.k.a.scb.state.SynSent? then
      Dialing(if d.synOut then d
              else d.(k := d.k.(ab := d.k.ab + [Pkt(SynSegment(d.k.a.scb), [])]), synOut := true))
    else match NextA(d.k, e)
      case Going(k) => Dialing(d.(k := k))
      case Broken => Failed
  }

  /** What happens at side B, which listens: it sends nothing before it knows its peer. */
  function DialB(d: Dial, e: Event): DialOutcome
    requires d.k.b.Valid()
  {
    if e.Send? && d.k.b.scb.state.Listen? then Dialing(d)
    else match NextA(Swap(d.k), e)
      case Going(k) =>
        Dialing(d.(k := Swap(k), lost := d.lost + (if e.Send? then Dropped(d.k.b, SendTx(d.k.b, e.room)) else [])))
      case Broken => Failed
  }

  function NextDial(d: Dial, e: Event): DialOutcome
    requires d.k.a.Valid() && d.k.b.Valid()
  {
    if e.side.SideA? then DialA(d, e) else DialB(d, e)
  }

  ghost predicate DialRuns(d: Dial, events: seq<Event>, d': Dial)
    decreases |events|
  {
    if events == [] then d == d'
    else
      && d.k.a.Valid() && d.k.b.Valid() && NextDial(d, events[0]).Dialing?
      && DialRuns(NextDial(d, events[0]).d, events[1..], d')
  }

  // ---------------------------------------------------------------------------------------------
  // Until the SYN|ACK arrives

  /** How far the handshake is: nothing sent, SYN in flight, SYN taken, SYN|ACK in flight. */
  datatype Phase = Quiet0 | SynOnWay | SynTaken | SynAckOnWay

  function ListenerBlock(c: Config, ph: Phase): Block {
    match ph
    case Quiet0 => Opened(c).b
    case SynOnWay => Opened(c).b
    case SynTaken => SynRcvdB(c)
    case SynAckOnWay => SynAckSentB(c)
  }

  /** Before the opener has its answer; whatever the users wrote is in the rings, or lost. */
  predicate Early(d: Dial, c: Config, ph: Phase) {
    && c.Valid()
    && d.k.a == Conn(SynSentA(c), d.k.a.tx, d.k.a.txCap, [], c.wndA, false) && |d.k.a.tx| <= d.k.a.txCap
    && d.k.b == Conn(ListenerBlock(c, ph), d.k.b.tx, d.k.b.txCap, [], c.wndB, false) && |d.k.b.tx| <= d.k.b.txCap
    && d.k.ab == (if ph.SynOnWay? then [Pkt(Syn(c), [])] else [])
    && d.k.ba == (if ph.SynAckOnWay? then [Pkt(SynAck(c), [])] else [])
    && (d.synOut <==> !ph.Quiet0?)
    && d.k.wroteA == d.k.a.tx && d.k.wroteB == d.lost + d.k.b.tx && d.k.readA == d.k.readB == []
    && (!ph.SynAckOnWay? ==> d.lost == [])
  }

  lemma {:induction false} EarlyWriteA(d: Dial, c: Config, ph: Phase, e: Event)
    requires Early(d, c, ph) && e.Write? && e.side.SideA?
    ensures NextDial(d, e).Dialing? && Early(NextDial(d, e).d, c, ph) && NextDial(d, e).d.lost == d.lost
  {
  }

  lemma {:induction false} EarlyWriteB(d: Dial, c: Config, ph: Phase, e: Event)
    requires Early(d, c, ph) && e.Write? && e.side.SideB?
    ensures NextDial(d, e).Dialing? && Early(NextDial(d, e).d, c, ph) && NextDial(d, e).d.lost == d.lost
  {
    assert d.lost + [] == d.lost && d.lost + d.k.b.tx + e.b == d.lost + (d.k.b.tx + e.b);
  }

  /** There is nothing to read yet. */
  lemma {:induction false} EarlyRead(d: Dial, c: Config, ph: Phase, e: Event)
    requires Early(d, c, ph) && e.Read?
    ensures NextDial(d, e) == Dialing(d)
  {
    assert d.k.readA + [] == d.k.readA && d.k.readB + [] == d.k.readB && d.lost + [] == d.lost;
    ReadsNothing(d.k.a, e.n);
    ReadsNothing(d.k.b, e.n);
  }

  lemma {:induction false} ReadsNothing(c: Conn, n: nat)
    requires c.rx == []
    ensures ReadRx(c, n) == (c, [])
  {
  }

  lemma {:induction false} EarlySendA(d: Dial, c: Config, ph: Phase, e: Event)
    requires Early(d, c, ph) && e.Send? && e.side.SideA?
    ensures NextDial(d, e).Dialing? && NextDial(d, e).d.lost == d.lost
    ensures Early(NextDial(d, e).d, c, if ph.Quiet0? then SynOnWay else ph)
  {
    assert SynSegment(SynSentA(c)) == Syn(c);
  }

  /** The SYN|ACK reads nothing from the transmit ring, which empties one that is full. */
  lemma {:induction false} SynAckEmpties(b: Conn, c: Config, room: nat)
    requires c.Valid() && b == Conn(SynRcvdB(c), b.tx, b.txCap, [], c.wndB, false) && |b.tx| <= b.txCap
    ensures var tx := if b.tx != [] && room > 0 && |b.tx| == b.txCap then [] else b.tx;
            SendTx(b, room) == (b.(scb := SynAckSentB(c), tx := tx), Emitted(SynAck(c), []))
  {
    var n := Min(|b.tx|, room);
    assert SetRecvWindow(SynRcvdB(c), c.wndB) == SynRcvdB(c);
    SynAckEmitted(c, n);
    assert b.tx[0..] == b.tx && b.tx[..0] == [];
  }

  lemma {:induction false} SynAckEmitted(c: Config, n: nat)
    requires c.Valid()
    ensures EmitPending(SynRcvdB(c), n) == Control.Sent(SynAckSentB(c), SynAck(c))
  {
    WithoutAll(SYNACK, SYNACK);
    WithoutAll(NO_FLAGS, SYNACK.And(FIN));
    OrNothing(NO_FLAGS);
    assert PendingSegment(SynRcvdB(c), n) == (SynRcvdB(c), Offered(SynAck(c)));
    assert CheckOutgoing(SynRcvdB(c), SynAck(c)) == NoError;
  }

  /** A listener that has answered, and has no reply yet, has nothing to send. */
  lemma {:induction false} WaitingIsIdle(b: Conn, room: nat)
    requires b.Valid() && b.scb.state.SynRcvd? && b.scb.pending0 == NO_FLAGS && !b.scb.challengeAck && !b.closing
    requires b.scb.rcv.wnd == b.Free()
    ensures SendTx(b, room) == (b, Yielded)
  {
    var blk := SetRecvWindow(b.scb, b.Free());
    assert blk == b.scb;
    assert PendingSegment(blk, Min(|b.tx|, room)) == (blk, NoSegment);
  }

  /** The listener's ring is full as it sends its SYN|ACK. */
  predicate FullAtSynAck(d: Dial, e: Event) {
    && e.Send? && e.side.SideB? && e.room > 0
    && d.k.b.scb.state.SynRcvd? && d.k.b.scb.pending0 == SYNACK
    && d.k.b.tx != [] && |d.k.b.tx| == d.k.b.txCap
  }

  lemma {:induction false} EarlySendB(d: Dial, c: Config, ph: Phase, e: Event)
    requires Early(d, c, ph) && e.Send? && e.side.SideB?
    ensures NextDial(d, e).Dialing?
    ensures Early(NextDial(d, e).d, c, if ph.SynTaken? then SynAckOnWay else ph)
    ensures NextDial(d, e).d.lost == d.lost + if FullAtSynAck(d, e) then d.k.b.tx else []
  {
    assert d.lost + [] == d.lost && forall s: seq<byte> :: [] + s == s;
    if ph.SynTaken? {
      SynAckEmpties(d.k.b, c, e.room);
    } else if ph.SynAckOnWay? {
      WaitingIsIdle(d.k.b, e.room);
    }
  }

  lemma {:induction false} EarlyRecvB(d: Dial, c: Config, ph: Phase, e: Event)
    requires Early(d, c, ph) && e.Recv? && e.side.SideB?
    ensures NextDial(d, e).Dialing? && NextDial(d, e).d.lost == d.lost
    ensures Early(NextDial(d, e).d, c, if ph.SynOnWay? then SynTaken else ph)
  {
    assert d.lost + [] == d.lost;
    if ph.SynOnWay? {
      assert Control.Recv(Opened(c).b, Syn(c)) == Result(SynRcvdB(c), NoError);
    }
  }

  // ---------------------------------------------------------------------------------------------
  // The opener is established, the listener not yet

  /** The link with the lost bytes taken out of what side B wrote. */
  function Kept(d: Dial): Link
    requires |d.lost| <= |d.k.wroteB|
  {
    d.k.(wroteB := d.k.wroteB[|d.lost|..])
  }

  predicate LostFirst(d: Dial) {
    d.lost <= d.k.wroteB
  }

  /** The link in unbounded positions while the acknowledgment of the listener's SYN is on the way. */
  ghost predicate Half(k: Link, l: INet) {
    && Plain(k.a, l.a)
    && k.b.Valid() && k.b.rx == [] && k.b.rxCap <= MAX_WINDOW && !k.b.closing
    && k.b.scb == WrapBlock(l.b) && l.b.state.SynRcvd? && Flows.Quiet(l.b)
    && l.b.pending0 == NO_FLAGS && l.b.rcvWnd == k.b.rxCap && l.b.nxt == l.b.una + 1 && l.a.rcvNxt == l.b.nxt
    && k.ba == [] && l.ba == [] && Carries(k.ab, l.ab) && (forall i :: 0 <= i < |l.ab| ==> l.ab[i].ackno == l.b.nxt)
    && Flow(l.a, l.b, l.ab, l.ackA, l.edgeA) && Flow(l.b, l.a, l.ba, l.ackB, l.edgeB)
    && l.edgeA <= l.a.rcvNxt + k.a.Free() && l.edgeB <= l.b.rcvNxt + k.b.Free()
    && Conserved(k.wroteA, k.readB, k.b, k.ab, k.a) && Conserved(k.wroteB, k.readA, k.a, k.ba, k.b)
    && k.a.rx == []
  }

  /** The SYN|ACK establishes the opener. */
  lemma {:induction false} SynAckEstablishes(d: Dial, c: Config, e: Event) returns (l: INet)
    requires Early(d, c, SynAckOnWay) && e.Recv? && e.side.SideA?
    ensures NextDial(d, e).Dialing? && NextDial(d, e).d.lost == d.lost && LostFirst(NextDial(d, e).d)
    ensures Half(Kept(NextDial(d, e).d), l)
  {
    var a := Ideal.IBlock(c.issA, c.issA + 1, c.issA + 1, c.wndB, c.issB, c.issB + 1, c.wndA, 0,
                          ACK, NO_FLAGS, Established, false);
    var b := Ideal.IBlock(c.issB, c.issB, c.issB + 1, c.wndA, c.issA, c.issA + 1, c.wndB, 0,
                          NO_FLAGS, NO_FLAGS, SynRcvd, false);
    l := INet(a, b, [], [], c.issB, c.issB + c.wndA, c.issA + 1, c.issA + 1 + c.wndB);
    OpenerTakesSynAck(SynSentA(c), c);
    EstablishedWraps(c, a, b);
    var d' := NextDial(d, e).d;
    assert d'.k == d.k.(a := d.k.a.(scb := EstablishedA(SynSentA(c), c)), ba := []);
    assert d'.k.wroteB[|d.lost|..] == d.k.b.tx;
    assert Payloads([]) == [] && [] + [] + [] + d.k.b.tx == d.k.b.tx;
  }

  lemma {:induction false} EstablishedWraps(c: Config, a: Ideal.IBlock, b: Ideal.IBlock)
    requires a == Ideal.IBlock(c.issA, c.issA + 1, c.issA + 1, c.wndB, c.issB, c.issB + 1, c.wndA, 0,
                               ACK, NO_FLAGS, Established, false)
    requires b == Ideal.IBlock(c.issB, c.issB, c.issB + 1, c.wndA, c.issA, c.issA + 1, c.wndB, 0,
                               NO_FLAGS, NO_FLAGS, SynRcvd, false)
    ensures WrapBlock(a) == EstablishedA(SynSentA(c), c) && WrapBlock(b) == SynAckSentB(c)
  {
  }

  lemma {:induction false} HalfWriteA(k: Link, l: INet, b: seq<byte>)
    requires Half(k, l) && |b| <= k.a.txCap - |k.a.tx|
    ensures Half(k.(a := k.a.(tx := k.a.tx + b), wroteA := k.wroteA + b), l)
  {
  }

  lemma {:induction false} HalfWriteB(k: Link, l: INet, b: seq<byte>)
    requires Half(k, l) && |b| <= k.b.txCap - |k.b.tx|
    ensures Half(k.(b := k.b.(tx := k.b.tx + b), wroteB := k.wroteB + b), l)
  {
  }

  lemma {:induction false} HalfSent(k: Link, l: INet, x': Ideal.IBlock, s: Ideal.Seg)
    requires Half(k, l) && s.dataLen <= |k.a.tx| && s.ackno == l.a.rcvNxt
    requires Flows.Quiet(x') && x'.state.Established? && Known(x') == Known(l.a)
    requires Flow(x', l.b, l.ab + [s], l.a.rcvNxt, l.a.rcvNxt + k.a.Free())
    ensures Half(k.(a := k.a.(scb := WrapBlock(x'), tx := k.a.tx[s.dataLen..]),
                    ab := k.ab + [Pkt(WrapSeg(s), k.a.tx[..s.dataLen])]),
                 l.(a := x', ab := l.ab + [s], ackA := l.a.rcvNxt, edgeA := l.a.rcvNxt + k.a.Free()))
  {
    SentConserved(k.wroteA, k.readB, k.b, k.ab, k.a, WrapSeg(s), s.dataLen, WrapBlock(x'));
    CarriesAppend(k.ab, l.ab, Pkt(WrapSeg(s), k.a.tx[..s.dataLen]), s);
    assert forall i :: 0 <= i < |l.ab + [s]| ==> (l.ab + [s])[i].ackno == l.b.nxt;
  }

  lemma {:induction false} CarriesAppend(q: seq<Pkt>, s: seq<Ideal.Seg>, p: Pkt, x: Ideal.Seg)
    requires Carries(q, s) && p.seg == WrapSeg(x) && |p.payload| == x.dataLen
    ensures Carries(q + [p], s + [x])
  {
  }

  /** Sending moves bytes from the ring into flight. */
  lemma {:induction false} SentConserved(wrote: seq<byte>, read: seq<byte>, to: Conn, q: seq<Pkt>, from: Conn,
                                         seg: Segment, n: nat, b: Block)
    requires Conserved(wrote, read, to, q, from) && n <= |from.tx|
    ensures Conserved(wrote, read, to, q + [Pkt(seg, from.tx[..n])], from.(scb := b, tx := from.tx[n..]))
  {
    PayloadsAppend(q, Pkt(seg, from.tx[..n]));
    assert from.tx[..n] + from.tx[n..] == from.tx;
  }

  lemma {:induction false} HalfTransmits(k: Link, l: INet, r: (Conn, SendEvent), sent: bool, x': Ideal.IBlock,
                                         s: Ideal.Seg)
    returns (l': INet)
    requires Half(k, l) && Flows.Quiet(x') && x'.state.Established? && Known(x') == Known(l.a)
    requires sent ==> s.dataLen <= |k.a.tx| && s.ackno == l.a.rcvNxt
    requires sent ==> Flow(x', l.b, l.ab + [s], l.a.rcvNxt, l.a.rcvNxt + k.a.Free())
    requires !sent ==> Flow(x', l.b, l.ab, l.ackA, l.edgeA)
    requires r == if sent then (k.a.(scb := WrapBlock(x'), tx := k.a.tx[s.dataLen..]),
                                Emitted(WrapSeg(s), k.a.tx[..s.dataLen]))
                  else (k.a.(scb := WrapBlock(x')), Yielded)
    ensures Transmit(k, r).Going? && Half(Transmit(k, r).link, l')
  {
    if sent {
      HalfSent(k, l, x', s);
      l' := l.(a := x', ab := l.ab + [s], ackA := l.a.rcvNxt, edgeA := l.a.rcvNxt + k.a.Free());
    } else {
      l' := l.(a := x');
    }
  }

  lemma {:induction false} HalfSendA(k: Link, l: INet, room: nat) returns (l': INet)
    requires Half(k, l)
    ensures var o := Transmit(k, SendTx(k.a, room));
            o.Going? && Half(o.link, l')
  {
    var sent, x', s := SendWorks(k.a, l.a, l.b, l.ab, l.ackA, l.edgeA, room);
    l' := HalfTransmits(k, l, SendTx(k.a, room), sent, x', s);
  }

  /** The first segment of the opener is taken, and its payload is appended to the receive queue. */
  lemma {:induction false} FirstTaken(c: Conn, x: Ideal.IBlock, y: Ideal.IBlock, q: seq<Ideal.Seg>, ack: int, edge: int,
                                      ack': int, edge': int, p: Pkt)
    returns (y': Ideal.IBlock)
    requires c.Valid() && c.rx == [] && !c.closing && c.scb == WrapBlock(y)
    requires Flows.Quiet(x) && Flows.Quiet(y) && x.state.Established? && y.state.SynRcvd?
    requires y.nxt == y.una + 1 && y.pending0 == NO_FLAGS
    requires Flow(x, y, q, ack, edge) && Flow(y, x, [], ack', edge') && q != [] && q[0].ackno == y.nxt
    requires edge' <= y.rcvNxt + c.Free()
    requires p.seg == WrapSeg(q[0]) && |p.payload| == q[0].dataLen
    ensures RecvRx(c, p.seg, p.payload) == (c.(scb := WrapBlock(y'), rx := p.payload), Delivered)
    ensures |p.payload| <= c.rxCap && y'.rcvNxt == y.rcvNxt + |p.payload| && y'.state.Established?
    ensures Flows.Quiet(y') && Flow(x, y', q[1..], ack, edge) && Flow(y', x, [], ack', edge')
  {
    HeadFits(x, y, q, ack, edge, [], ack', edge');
    y' := DeliverFirst(x, y, q, ack, edge, [], ack', edge');
    RecvRefines(y, q[0]);
    assert c.rx + p.payload == p.payload;
  }

  lemma {:induction false} FirstGood(k: Link, l: INet, y': Ideal.IBlock)
    requires Half(k, l) && k.ab != [] && |k.ab[0].payload| <= k.b.rxCap
    requires Flows.Quiet(y') && y'.state.Established? && y'.rcvNxt == l.b.rcvNxt + |k.ab[0].payload|
    requires Flow(l.a, y', l.ab[1..], l.ackA, l.edgeA) && Flow(y', l.a, [], l.ackB, l.edgeB)
    ensures Good(k.(b := k.b.(scb := WrapBlock(y'), rx := k.ab[0].payload), ab := k.ab[1..]),
                 l.(b := y', ab := l.ab[1..]))
  {
    assert Payloads(k.ab) == k.ab[0].payload + Payloads(k.ab[1..]);
  }

  /** The first segment of the opener establishes the listener; its data is not lost. */
  lemma {:induction false} HalfRecvB(k: Link, l: INet) returns (l': INet)
    requires Half(k, l) && k.ab != []
    ensures var r := RecvRx(k.b, k.ab[0].seg, k.ab[0].payload);
            r.1.Delivered? && Good(k.(b := r.0, ab := k.ab[1..]), l')
  {
    var y' := FirstTaken(k.b, l.a, l.b, l.ab, l.ackA, l.edgeA, l.ackB, l.edgeB, k.ab[0]);
    FirstGood(k, l, y');
    l' := l.(b := y', ab := l.ab[1..]);
  }

  // ---------------------------------------------------------------------------------------------
  // All steps

  /** Taking the lost bytes out commutes with every event. */
  lemma {:induction false} KeptNextA(k: Link, n: nat, e: Event)
    requires k.a.Valid() && n <= |k.wroteB| && NextA(k.(wroteB := k.wroteB[n..]), e).Going?
    ensures NextA(k, e).Going? && NextA(k, e).link.wroteB == k.wroteB
    ensures NextA(k.(wroteB := k.wroteB[n..]), e).link == NextA(k, e).link.(wroteB := k.wroteB[n..])
  {
  }

  lemma {:induction false} KeptNextB(k: Link, n: nat, e: Event)
    requires k.b.Valid() && n <= |k.wroteB| && NextA(Swap(k.(wroteB := k.wroteB[n..])), e).Going?
    ensures NextA(Swap(k), e).Going? && n <= |Swap(NextA(Swap(k), e).link).wroteB|
    ensures var k' := Swap(NextA(Swap(k), e).link);
            && k.wroteB <= k'.wroteB
            && Swap(NextA(Swap(k.(wroteB := k.wroteB[n..])), e).link) == k'.(wroteB := k'.wroteB[n..])
  {
    var k0 := Swap(k.(wroteB := k.wroteB[n..]));
    match e {
      case Write(_, b) =>
        assert (k.wroteB + b)[n..] == k.wroteB[n..] + b;
        var c := WriteTx(k.b, b);
        assert NextA(k0, e).link == k0.(a := c, wroteA := if c == k.b then k0.wroteA else k0.wroteA + b);
      case Read(_, _) =>
      case Send(_, _) =>
      case Recv(_) =>
    }
  }

  lemma {:induction false} HalfA(k: Link, l: INet, e: Event) returns (l': INet)
    requires Half(k, l) && e.side.SideA? && (e.Read? ==> e.n > 0)
    ensures NextA(k, e).Going? && Half(NextA(k, e).link, l')
  {
    l' := l;
    match e {
      case Write(_, b) =>
        if |b| <= k.a.txCap - |k.a.tx| {
          HalfWriteA(k, l, b);
          assert b == [] ==> k.a.tx + b == k.a.tx && k.wroteA + b == k.wroteA;
        }
      case Read(_, n) =>
        ReadsNothing(k.a, n);
        assert k.readA + [] == k.readA;
      case Send(_, room) => l' := HalfSendA(k, l, room);
      case Recv(_) =>
    }
  }

  ghost predicate Either(k: Link, l: INet) {
    Half(k, l) || Good(k, l)
  }

  lemma {:induction false} HalfB(k: Link, l: INet, e: Event) returns (l': INet)
    requires Half(k, l) && e.side.SideB? && (e.Read? ==> e.n > 0)
    ensures NextA(Swap(k), e).Going? && Either(Swap(NextA(Swap(k), e).link), l')
    ensures e.Send? ==> SendTx(k.b, e.room) == (k.b, Yielded)
  {
    l' := l;
    match e {
      case Write(_, b) =>
        if |b| <= k.b.txCap - |k.b.tx| {
          HalfWriteB(k, l, b);
          assert b == [] ==> k.b.tx + b == k.b.tx && k.wroteB + b == k.wroteB;
        }
      case Read(_, n) =>
        ReadsNothing(k.b, n);
        assert k.readB + [] == k.readB;
      case Send(_, room) => WaitingIsIdle(k.b, room);
      case Recv(_) =>
        if k.ab != [] {
          l' := HalfRecvB(k, l);
        }
    }
  }

  /** Past the first phases: the link without what was lost is half or fully established. */
  ghost predicate Late(d: Dial, l: INet) {
    LostFirst(d) && Either(Kept(d), l)
  }

  lemma {:induction false} EitherA(k: Link, l: INet, e: Event) returns (l': INet)
    requires Either(k, l) && e.side.SideA? && (e.Read? ==> e.n > 0)
    ensures NextA(k, e).Going? && Either(NextA(k, e).link, l') && !k.a.scb.state.SynSent?
  {
    if Half(k, l) {
      l' := HalfA(k, l, e);
    } else {
      l' := KeepsA(k, l, e);
    }
  }

  lemma {:induction false} DialAIs(d: Dial, e: Event)
    requires d.k.a.Valid() && !d.k.a.scb.state.SynSent? && NextA(d.k, e).Going?
    ensures DialA(d, e) == Dialing(d.(k := NextA(d.k, e).link))
  {
  }

  lemma {:induction false} LateA(d: Dial, l: INet, e: Event) returns (l': INet)
    requires Late(d, l) && e.side.SideA? && (e.Read? ==> e.n > 0)
    ensures d.k.a.Valid() && d.k.b.Valid()
    ensures NextDial(d, e).Dialing? && Late(NextDial(d, e).d, l') && NextDial(d, e).d.lost == d.lost
  {
    l' := EitherA(Kept(d), l, e);
    KeptNextA(d.k, |d.lost|, e);
    DialAIs(d, e);
    LateNow(d, NextDial(d, e).d, NextA(Kept(d), e).link, l');
  }

  lemma {:induction false} LateNow(d: Dial, d': Dial, k: Link, l: INet)
    requires LostFirst(d) && d'.lost == d.lost && d.k.wroteB <= d'.k.wroteB
    requires k == d'.k.(wroteB := d'.k.wroteB[|d.lost|..]) && Either(k, l)
    ensures Late(d', l)
  {
  }

  lemma {:induction false} SwapGood(k: Link, l: INet)
    requires Good(k, l)
    ensures Good(Swap(k), SwapNet(l))
  {
  }

  lemma {:induction false} GoodDropsNothing(k: Link, l: INet, room: nat)
    requires Good(k, l)
    ensures Dropped(k.b, SendTx(k.b, room)) == []
  {
    var sent, x', s := SendWorks(k.b, l.b, l.a, l.ba, l.ackB, l.edgeB, room);
    assert sent ==> k.b.tx[..s.dataLen] + k.b.tx[s.dataLen..] == k.b.tx;
  }

  lemma {:induction false} GoodB(k: Link, l: INet, e: Event) returns (l': INet)
    requires Good(k, l) && e.side.SideB? && (e.Read? ==> e.n > 0)
    ensures NextA(Swap(k), e).Going? && Good(Swap(NextA(Swap(k), e).link), l')
  {
    SwapGood(k, l);
    l' := KeepsA(Swap(k), SwapNet(l), e);
    SwapGood(NextA(Swap(k), e).link, l');
    l' := SwapNet(l');
  }

  lemma {:induction false} EitherB(k: Link, l: INet, e: Event) returns (l': INet)
    requires Either(k, l) && e.side.SideB? && (e.Read? ==> e.n > 0)
    ensures NextA(Swap(k), e).Going? && Either(Swap(NextA(Swap(k), e).link), l') && !k.b.scb.state.Listen?
    ensures e.Send? ==> Dropped(k.b, SendTx(k.b, e.room)) == []
  {
    if Half(k, l) {
      l' := HalfB(k, l, e);
    } else {
      l' := GoodB(k, l, e);
      if e.Send? {
        GoodDropsNothing(k, l, e.room);
      }
    }
  }

  lemma {:induction false} DialBIs(d: Dial, e: Event)
    requires d.k.b.Valid() && !d.k.b.scb.state.Listen? && NextA(Swap(d.k), e).Going?
    requires e.Send? ==> Dropped(d.k.b, SendTx(d.k.b, e.room)) == []
    ensures DialB(d, e) == Dialing(d.(k := Swap(NextA(Swap(d.k), e).link)))
  {
    assert d.lost + [] == d.lost;
  }

  lemma {:induction false} LateB(d: Dial, l: INet, e: Event) returns (l': INet)
    requires Late(d, l) && e.side.SideB? && (e.Read? ==> e.n > 0)
    ensures d.k.a.Valid() && d.k.b.Valid()
    ensures NextDial(d, e).Dialing? && Late(NextDial(d, e).d, l') && NextDial(d, e).d.lost == d.lost
  {
    l' := EitherB(Kept(d), l, e);
    KeptNextB(d.k, |d.lost|, e);
    DialBIs(d, e);
    LateNow(d, NextDial(d, e).d, Swap(NextA(Swap(Kept(d)), e).link), l');
  }

  lemma {:induction false} LateNotFull(d: Dial, l: INet, e: Event)
    requires Late(d, l)
    ensures !FullAtSynAck(d, e)
  {
  }

  ghost predicate Sound(d: Dial, c: Config) {
    (exists ph :: Early(d, c, ph)) || (exists l :: Late(d, l))
  }

  lemma {:induction false} EarlyStep(d: Dial, c: Config, ph: Phase, e: Event)
    requires Early(d, c, ph) && (e.Read? ==> e.n > 0)
    ensures d.k.a.Valid() && d.k.b.Valid() && NextDial(d, e).Dialing? && Sound(NextDial(d, e).d, c)
    ensures NextDial(d, e).d.lost == d.lost + if FullAtSynAck(d, e) then d.k.b.tx else []
  {
    assert d.lost + [] == d.lost;
    match e {
      case Write(side, _) =>
        if side.SideA? {
          EarlyWriteA(d, c, ph, e);
        } else {
          EarlyWriteB(d, c, ph, e);
        }
      case Read(_, _) => EarlyRead(d, c, ph, e);
      case Send(side, _) =>
        if side.SideA? {
          EarlySendA(d, c, ph, e);
        } else {
          EarlySendB(d, c, ph, e);
        }
      case Recv(side) =>
        if side.SideB? {
          EarlyRecvB(d, c, ph, e);
        } else if ph.SynAckOnWay? {
          var l := SynAckEstablishes(d, c, e);
          assert Late(NextDial(d, e).d, l);
        }
    }
  }

  lemma {:induction false} DialStep(d: Dial, c: Config, e: Event)
    requires Sound(d, c) && (e.Read? ==> e.n > 0)
    ensures d.k.a.Valid() && d.k.b.Valid() && NextDial(d, e).Dialing? && Sound(NextDial(d, e).d, c)
    ensures NextDial(d, e).d.lost == d.lost + if FullAtSynAck(d, e) then d.k.b.tx else []
  {
    if ph :| Early(d, c, ph) {
      EarlyStep(d, c, ph, e);
    } else {
      var l: INet :| Late(d, l);
      assert d.lost + [] == d.lost;
      LateNotFull(d, l, e);
      if e.side.SideA? {
        var l' := LateA(d, l, e);
      } else {
        var l' := LateB(d, l, e);
      }
    }
  }

  // ---------------------------------------------------------------------------------------------
  // The result

  /** In some event of the run the listener's ring is full as it sends its SYN|ACK. */
  ghost predicate EverFull(d: Dial, events: seq<Event>)
    decreases |events|
  {
    && events != [] && d.k.a.Valid() && d.k.b.Valid()
    && (FullAtSynAck(d, events[0])
        || (NextDial(d, events[0]).Dialing? && EverFull(NextDial(d, events[0]).d, events[1..])))
  }

  lemma {:induction false} RunSound(d: Dial, c: Config, events: seq<Event>) returns (d': Dial)
    requires Sound(d, c) && forall i :: 0 <= i < |events| && events[i].Read? ==> events[i].n > 0
    ensures DialRuns(d, events, d') && Sound(d', c) && d.lost <= d'.lost
    ensures d'.lost == d.lost <==> !EverFull(d, events)
    decreases |events|
  {
    d' := d;
    if events != [] {
      var d1 := StepSound(d, c, events[0]);
      d' := RunSound(d1, c, events[1..]);
    }
  }

  lemma {:induction false} StepSound(d: Dial, c: Config, e: Event) returns (d1: Dial)
    requires Sound(d, c) && (e.Read? ==> e.n > 0)
    ensures d.k.a.Valid() && d.k.b.Valid() && NextDial(d, e) == Dialing(d1) && Sound(d1, c)
    ensures d.lost <= d1.lost && (d1.lost == d.lost <==> !FullAtSynAck(d, e))
  {
    DialStep(d, c, e);
    d1 := NextDial(d, e).d;
  }

  /** Without the lost bytes everything is accounted for. */
  lemma {:induction false} SoundConserves(d: Dial, c: Config)
    requires Sound(d, c)
    ensures d.lost <= d.k.wroteB
    ensures d.k.a.scb.state.Established? ==>
              && Conserved(d.k.wroteA, d.k.readB, d.k.b, d.k.ab, d.k.a)
              && Conserved(d.k.wroteB[|d.lost|..], d.k.readA, d.k.a, d.k.ba, d.k.b)
    ensures !d.k.a.scb.state.Established? ==>
              d.k.wroteA == d.k.a.tx && d.k.wroteB == d.lost + d.k.b.tx && d.k.readA == d.k.readB == []
  {
  }

  lemma {:induction false} AccountedIff(d: Dial, c: Config)
    requires Sound(d, c)
    ensures d.k.a.scb.state.Established? ==>
              && Conserved(d.k.wroteA, d.k.readB, d.k.b, d.k.ab, d.k.a)
              && (Conserved(d.k.wroteB, d.k.readA, d.k.a, d.k.ba, d.k.b) <==> d.lost == [])
    ensures !d.k.a.scb.state.Established? ==>
              d.k.wroteA == d.k.a.tx && (d.k.wroteB == d.k.b.tx <==> d.lost == [])
  {
    SoundConserves(d, c);
    var all := d.k.wroteB;
    assert d.lost + all[|d.lost|..] == all;
    if d.lost == [] {
      assert all[0..] == all;
    }
  }

  /** The two connections right after Open. */
  function Started(c: Config, txA: nat, txB: nat): Dial
    requires c.Valid()
  {
    Dial(Link(OpenConn(Conn(ZERO_BLOCK, [], txA, [], c.wndA, false), c.issA, SynSent).0,
              OpenConn(Conn(ZERO_BLOCK, [], txB, [], c.wndB, false), c.issB, Listen).0, [], [], [], [], [], []),
         false, [])
  }

  lemma {:induction false} StartedEarly(c: Config, txA: nat, txB: nat)
    requires c.Valid()
    ensures Early(Started(c, txA, txB), c, Quiet0)
  {
    var b := Open(ZERO_BLOCK, c.issA, c.wndA, SynSent).block;
    assert SynSegment(b) == Syn(c);
    assert Control.Send(b, Syn(c)) == Result(SynSentA(c), NoError);
  }

  /** End to end from Open, in every interleaving: for all initial numbers, windows and ring sizes, every list of
      writes, reads, sends and receives runs to its end from the two Open calls: no segment is refused, no payload
      finds the receive ring full, nothing panics. Once the opener is established, the bytes the opener wrote are
      those read, buffered, in flight and unsent; and so are the bytes the listener wrote if and only if its transmit
      ring was not full as it sent its SYN|ACK. */
  lemma {:induction false} OpenedEndToEnd(c: Config, txA: nat, txB: nat, events: seq<Event>) returns (d': Dial)
    requires c.Valid() && forall i :: 0 <= i < |events| && events[i].Read? ==> events[i].n > 0
    ensures DialRuns(Started(c, txA, txB), events, d')
    ensures d'.k.a.scb.state.Established? ==>
              && Conserved(d'.k.wroteA, d'.k.readB, d'.k.b, d'.k.ab, d'.k.a)
              && (Conserved(d'.k.wroteB, d'.k.readA, d'.k.a, d'.k.ba, d'.k.b) <==>
                  !EverFull(Started(c, txA, txB), events))
    ensures !d'.k.a.scb.state.Established? ==>
              && d'.k.wroteA == d'.k.a.tx
              && (d'.k.wroteB == d'.k.b.tx <==> !EverFull(Started(c, txA, txB), events))
  {
    StartedEarly(c, txA, txB);
    d' := RunSound(Started(c, txA, txB), c, events);
    AccountedIff(d', c);
  }

  // ---------------------------------------------------------------------------------------------
  // Bytes can be lost

  /** The SYN goes out and arrives, the listener's user fills its transmit ring, and the listener answers. */
  function Hasty(b: seq<byte>): seq<Event> {
    [Send(SideA, 1), Recv(SideB), Write(SideB, b), Send(SideB, 1)]
  }

  lemma {:induction false} SynLeaves(d: Dial, c: Config) returns (d1: Dial)
    requires Early(d, c, Quiet0)
    ensures d.k.a.Valid() && d.k.b.Valid() && NextDial(d, Send(SideA, 1)) == Dialing(d1)
    ensures Early(d1, c, SynOnWay) && d1.k.b == d.k.b
  {
    EarlySendA(d, c, Quiet0, Send(SideA, 1));
    d1 := NextDial(d, Send(SideA, 1)).d;
  }

  lemma {:induction false} SynArrives(d: Dial, c: Config) returns (d1: Dial)
    requires Early(d, c, SynOnWay)
    ensures d.k.a.Valid() && d.k.b.Valid() && NextDial(d, Recv(SideB)) == Dialing(d1)
    ensures Early(d1, c, SynTaken) && d1.k.b.tx == d.k.b.tx && d1.k.b.txCap == d.k.b.txCap
  {
    EarlyRecvB(d, c, SynOnWay, Recv(SideB));
    d1 := NextDial(d, Recv(SideB)).d;
  }

  lemma {:induction false} FullLater(d: Dial, e: Event, d1: Dial, events: seq<Event>)
    requires d.k.a.Valid() && d.k.b.Valid() && NextDial(d, e) == Dialing(d1) && EverFull(d1, events)
    ensures EverFull(d, [e] + events)
  {
    assert ([e] + events)[1..] == events;
  }

  lemma {:induction false} FillsRing(d: Dial, c: Config, b: seq<byte>) returns (d': Dial)
    requires Early(d, c, SynTaken) && d.k.b.tx == [] && |b| == d.k.b.txCap > 0
    ensures NextDial(d, Write(SideB, b)) == Dialing(d') && d'.k.a.Valid() && d'.k.b.Valid()
    ensures FullAtSynAck(d', Send(SideB, 1))
  {
    EarlyWriteB(d, c, SynTaken, Write(SideB, b));
    d' := NextDial(d, Write(SideB, b)).d;
    assert [] + b == b;
  }

  /** The rest of the run, once the SYN is on its way. */
  function Filling(b: seq<byte>): seq<Event> {
    [Recv(SideB)] + ([Write(SideB, b)] + [Send(SideB, 1)])
  }

  lemma {:induction false} FillingFull(d: Dial, c: Config, b: seq<byte>)
    requires Early(d, c, SynOnWay) && d.k.b.tx == [] && |b| == d.k.b.txCap > 0
    ensures EverFull(d, Filling(b))
  {
    var d2 := SynArrives(d, c);
    var d3 := FillsRing(d2, c, b);
    assert EverFull(d3, [Send(SideB, 1)]);
    FullLater(d2, Write(SideB, b), d3, [Send(SideB, 1)]);
    FullLater(d, Recv(SideB), d2, [Write(SideB, b)] + [Send(SideB, 1)]);
  }

  /** Whatever the numbers, windows and sizes, what the listener's user writes before the answer goes out is lost if it
      fills the ring. */
  lemma {:induction false} HastyListenerLoses(c: Config, txA: nat, b: seq<byte>)
    requires c.Valid() && b != []
    ensures EverFull(Started(c, txA, |b|), Hasty(b))
  {
    StartedEarly(c, txA, |b|);
    StartedRing(c, txA, |b|);
    var d1 := SynLeaves(Started(c, txA, |b|), c);
    FillingFull(d1, c, b);
    FullLater(Started(c, txA, |b|), Send(SideA, 1), d1, Filling(b));
    assert Hasty(b) == [Send(SideA, 1)] + Filling(b);
  }

  lemma StartedRing(c: Config, txA: nat, txB: nat)
    requires c.Valid()
    ensures Started(c, txA, txB).k.b.tx == [] && Started(c, txA, txB).k.b.txCap == txB
  {
  }
}
