/** Two control blocks joined by FIFO queues, from Open on: an active opener A and a passive listener B
    with constant windows. The oracle of the repository's fuzz test, for every run. */
module Pair {
  import opened SeqNum
  import opened Segments
  import opened Control
  import Ideal
  import opened Refinement
  import opened Flows

  datatype Net = Net(a: Block, b: Block, ab: seq<Segment>, ba: seq<Segment>)

  datatype Action = EmitA(n: nat) | EmitB(n: nat) | DeliverToA | DeliverToB

  /** A run stops at the first segment that its own sender or its receiver refuses. */
  datatype Status = Running(net: Net) | Rejected(seg: Segment, err: Err) | Panicked

  function Next(net: Net, act: Action): Status {
    match act
    case EmitA(n) =>
      (match EmitPending(net.a, n)
       case Idle(a) => Running(net.(a := a))
       case Sent(a, seg) => Running(net.(a := a, ab := net.ab + [seg]))
       case Fault(_, seg, err) => Rejected(seg, err)
       case Crash => Panicked)
    case EmitB(n) =>
      (match EmitPending(net.b, n)
       case Idle(b) => Running(net.(b := b))
       case Sent(b, seg) => Running(net.(b := b, ba := net.ba + [seg]))
       case Fault(_, seg, err) => Rejected(seg, err)
       case Crash => Panicked)
    case DeliverToA =>
      if net.ba == [] then Running(net)
      else
        var r := Recv(net.a, net.ba[0]);
        if r.err == NoError then Running(net.(a := r.block, ba := net.ba[1..]))
        else Rejected(net.ba[0], r.err)
    case DeliverToB =>
      if net.ab == [] then Running(net)
      else
        var r := Recv(net.b, net.ab[0]);
        if r.err == NoError then Running(net.(b := r.block, ab := net.ab[1..]))
        else Rejected(net.ab[0], r.err)
  }

  function Run(net: Net, acts: seq<Action>): Status
    decreases |acts|
  {
    if acts == [] then Running(net)
    else match Next(net, acts[0])
      case Running(net') => Run(net', acts[1..])
      case stopped => stopped
  }

  /** Initial sequence numbers and windows of the two sides. */
  datatype Config = Config(issA: Value, issB: Value, wndA: Size, wndB: Size)
  {
    predicate Valid() {
      wndA <= MAX_WINDOW && wndB <= MAX_WINDOW
    }
  }

  /** Both sides opened from their zero values: A actively, B passively. */
  function Opened(c: Config): Net {
    Net(Open(ZERO_BLOCK, c.issA, c.wndA, SynSent).block, Open(ZERO_BLOCK, c.issB, c.wndB, Listen).block, [], [])
  }

  /** Two established blocks in step, nothing in flight: where the fuzz test starts. */
  predicate InStep(net: Net) {
    && net.ab == [] && net.ba == []
    && net.a.state.Established? && net.b.state.Established?
    && net.a.pending0 == net.a.pending1 == net.b.pending0 == net.b.pending1 == NO_FLAGS
    && !net.a.challengeAck && !net.b.challengeAck
    && net.a.snd.una == net.a.snd.nxt == net.b.rcv.nxt && net.a.snd.wnd == net.b.rcv.wnd <= MAX_WINDOW
    && net.b.snd.una == net.b.snd.nxt == net.a.rcv.nxt && net.b.snd.wnd == net.a.rcv.wnd <= MAX_WINDOW
  }

  function Octets(q: seq<Segment>): nat {
    if q == [] then 0 else q[0].Len() + Octets(q[1..])
  }

  // ---------------------------------------------------------------------------------------------
  // What every run keeps

  function Syn(c: Config): Segment {
    Segment(c.issA, 0, 0, c.wndA, SYN)
  }

  function SynAck(c: Config): Segment {
    Segment(c.issB, Add(c.issA, 1), 0, c.wndB, SYNACK)
  }

  /** The opener once its SYN is out. */
  function SynSentA(c: Config): Block {
    Opened(c).a.(snd := SendSpace(c.issA, c.issA, Add(c.issA, 1), 1), pending0 := NO_FLAGS)
  }

  /** The listener once it has the SYN. */
  function SynRcvdB(c: Config): Block {
    Opened(c).b.(snd := ResetSnd(c.issB, c.wndA), rcv := RecvSpace(c.issA, Add(c.issA, 1), c.wndB),
                 state := SynRcvd, pending0 := SYNACK)
  }

  /** ... and once its SYN|ACK is out. */
  function SynAckSentB(c: Config): Block {
    SynRcvdB(c).(snd := SendSpace(c.issB, c.issB, Add(c.issB, 1), c.wndA), pending0 := NO_FLAGS)
  }

  predicate Handshaking(net: Net, c: Config) {
    || net == Opened(c)
    || net == Opened(c).(a := SynSentA(c), ab := [Syn(c)])
    || net == Net(SynSentA(c), SynRcvdB(c), [], [])
    || net == Net(SynSentA(c), SynAckSentB(c), [], [SynAck(c)])
  }

  /** The same system in unbounded positions, with what each side advertised last. */
  datatype INet = INet(a: Ideal.IBlock, b: Ideal.IBlock, ab: seq<Ideal.Seg>, ba: seq<Ideal.Seg>,
                       ackA: int, edgeA: int, ackB: int, edgeB: int)

  function WrapQueue(q: seq<Ideal.Seg>): (r: seq<Segment>)
    ensures |r| == |q|
  {
    seq(|q|, i requires 0 <= i < |q| => WrapSeg(q[i]))
  }

  function WrapNet(l: INet): Net {
    Net(WrapBlock(l.a), WrapBlock(l.b), WrapQueue(l.ab), WrapQueue(l.ba))
  }

  /** The opener is established; the listener is, or the acknowledgment of its SYN is on the way. */
  ghost predicate Connected(l: INet, c: Config) {
    && l.a.irs == c.issB && l.b.irs == c.issA && l.a.rcvWnd == c.wndA && l.b.rcvWnd == c.wndB
    && l.a.state.Established? && (l.b.state.Established? || l.b.state.SynRcvd?)
    && Quiet(l.a) && Quiet(l.b)
    && Flow(l.a, l.b, l.ab, l.ackA, l.edgeA) && Flow(l.b, l.a, l.ba, l.ackB, l.edgeB)
    && (l.b.state.SynRcvd? ==>
          && l.ba == [] && l.b.pending0 == NO_FLAGS && l.b.nxt == l.b.una + 1 && l.a.rcvNxt == l.b.nxt
          && forall i :: 0 <= i < |l.ab| ==> l.ab[i].ackno == l.b.nxt)
  }

  ghost predicate Inv(net: Net, c: Config) {
    Handshaking(net, c) || exists l: INet :: net == WrapNet(l) && Connected(l, c)
  }

  // ---------------------------------------------------------------------------------------------
  // Every action keeps it

  lemma {:induction false} HandshakeStep(net: Net, c: Config, act: Action)
    requires c.Valid() && Handshaking(net, c) && !(net.ba != [] && act.DeliverToA?)
    ensures Next(net, act).Running? && Handshaking(Next(net, act).net, c)
  {
  }

  /** An opener whose SYN is out takes the SYN|ACK that acknowledges it. */
  lemma {:induction false} OpenerTakesSynAck(a: Block, c: Config)
    requires c.Valid() && a.state.SynSent? && a.pending0 == NO_FLAGS
    requires a.snd.iss == a.snd.una == c.issA && a.snd.nxt == Add(c.issA, 1) && a.rcv.wnd == c.wndA
    ensures Recv(a, SynAck(c)) == Result(EstablishedA(a, c), NoError)
  {
  }

  /** The opener once it has the SYN|ACK. */
  function EstablishedA(a: Block, c: Config): Block {
    a.(snd := SendSpace(c.issA, Add(c.issA, 1), Add(c.issA, 1), c.wndB),
       rcv := RecvSpace(c.issB, Add(c.issB, 1), c.wndA), state := Established, pending0 := ACK)
  }

  function FinalAckSeg(c: Config): Segment {
    Segment(Add(c.issA, 1), Add(c.issB, 1), 0, c.wndA, ACK)
  }

  lemma {:induction false} OpenerAcknowledges(a: Block, c: Config)
    requires c.Valid() && a.pending1 == NO_FLAGS && !a.challengeAck
    ensures EmitPending(EstablishedA(a, c), 0)
            == Sent(EstablishedA(a, c).(pending0 := NO_FLAGS), FinalAckSeg(c))
  {
  }

  /** The listener takes the final acknowledgment. */
  lemma {:induction false} ListenerTakesAck(b: Block, c: Config)
    requires c.Valid() && b == SynAckSentB(c)
    ensures Recv(b, FinalAckSeg(c))
            == Result(b.(state := Established, snd := b.snd.(una := Add(c.issB, 1), wnd := c.wndA)), NoError)
  {
  }

  /** The SYN|ACK reaches the opener: it is established, knowing the listener's number. */
  lemma {:induction false} SynAckArrives(net: Net, c: Config)
    requires c.Valid() && net == Net(SynSentA(c), SynAckSentB(c), [], [SynAck(c)])
    ensures Next(net, DeliverToA).Running? && Inv(Next(net, DeliverToA).net, c)
  {
    var a := Ideal.IBlock(c.issA, c.issA + 1, c.issA + 1, c.wndB, c.issB, c.issB + 1, c.wndA, 0,
                          ACK, NO_FLAGS, Established, false);
    var b := Ideal.IBlock(c.issB, c.issB, c.issB + 1, c.wndA, c.issA, c.issA + 1, c.wndB, 0,
                          NO_FLAGS, NO_FLAGS, SynRcvd, false);
    var l := INet(a, b, [], [], c.issB, c.issB + c.wndA, c.issA + 1, c.issA + 1 + c.wndB);
    OpenerTakesSynAck(SynSentA(c), c);
    assert Connected(l, c);
    assert Next(net, DeliverToA).net == WrapNet(l);
  }

  lemma WrapQueueAppend(q: seq<Ideal.Seg>, s: Ideal.Seg)
    ensures WrapQueue(q + [s]) == WrapQueue(q) + [WrapSeg(s)]
  {
  }

  lemma WrapQueueTail(q: seq<Ideal.Seg>)
    requires q != []
    ensures WrapQueue(q)[0] == WrapSeg(q[0]) && WrapQueue(q)[1..] == WrapQueue(q[1..])
  {
  }

  lemma {:induction false} EmitAStep(l: INet, c: Config, n: nat) returns (l': INet)
    requires c.Valid() && Connected(l, c)
    ensures Next(WrapNet(l), EmitA(n)) == Running(WrapNet(l')) && Connected(l', c)
  {
    var sent, a', s := EmitRefined(l.a, l.b, l.ab, l.ackA, l.edgeA, l.a.rcvWnd, n);
    assert SetRecvWindow(WrapBlock(l.a), l.a.rcvWnd) == WrapBlock(l.a);
    if sent {
      WrapQueueAppend(l.ab, s);
      l' := l.(a := a', ab := l.ab + [s], ackA := l.a.rcvNxt, edgeA := l.a.rcvNxt + l.a.rcvWnd);
    } else {
      l' := l.(a := a');
    }
  }

  lemma {:induction false} EmitBStep(l: INet, c: Config, n: nat) returns (l': INet)
    requires c.Valid() && Connected(l, c)
    ensures Next(WrapNet(l), EmitB(n)) == Running(WrapNet(l')) && Connected(l', c)
  {
    l' := l;
    if l.b.state.Established? {
      var sent, b', s := EmitRefined(l.b, l.a, l.ba, l.ackB, l.edgeB, l.b.rcvWnd, n);
      assert SetRecvWindow(WrapBlock(l.b), l.b.rcvWnd) == WrapBlock(l.b);
      if sent {
        WrapQueueAppend(l.ba, s);
        l' := l.(b := b', ba := l.ba + [s], ackB := l.b.rcvNxt, edgeB := l.b.rcvNxt + l.b.rcvWnd);
      } else {
        l' := l.(b := b');
      }
    }
  }

  lemma {:induction false} DeliverToAStep(l: INet, c: Config) returns (l': INet)
    requires c.Valid() && Connected(l, c)
    ensures Next(WrapNet(l), DeliverToA) == Running(WrapNet(l')) && Connected(l', c)
  {
    l' := l;
    if l.ba != [] {
      var a' := Deliver(l.b, l.a, l.ba, l.ackB, l.edgeB, l.ab, l.ackA, l.edgeA);
      RecvRefines(l.a, l.ba[0]);
      WrapQueueTail(l.ba);
      l' := l.(a := a', ba := l.ba[1..]);
    }
  }

  lemma {:induction false} DeliverToBStep(l: INet, c: Config) returns (l': INet)
    requires c.Valid() && Connected(l, c)
    ensures Next(WrapNet(l), DeliverToB) == Running(WrapNet(l')) && Connected(l', c)
  {
    l' := l;
    if l.ab != [] {
      var b': Ideal.IBlock;
      if l.b.state.Established? {
        b' := Deliver(l.a, l.b, l.ab, l.ackA, l.edgeA, l.ba, l.ackB, l.edgeB);
      } else {
        b' := DeliverFirst(l.a, l.b, l.ab, l.ackA, l.edgeA, l.ba, l.ackB, l.edgeB);
      }
      RecvRefines(l.b, l.ab[0]);
      WrapQueueTail(l.ab);
      l' := l.(b := b', ab := l.ab[1..]);
    }
  }

  lemma {:induction false} Step(net: Net, c: Config, act: Action)
    requires c.Valid() && Inv(net, c)
    ensures Next(net, act).Running? && Inv(Next(net, act).net, c)
  {
    if Handshaking(net, c) {
      if net.ba != [] && act.DeliverToA? {
        SynAckArrives(net, c);
      } else {
        HandshakeStep(net, c, act);
      }
    } else {
      var l: INet :| net == WrapNet(l) && Connected(l, c);
      var l': INet;
      match act {
        case EmitA(n) => l' := EmitAStep(l, c, n);
        case EmitB(n) => l' := EmitBStep(l, c, n);
        case DeliverToA => l' := DeliverToAStep(l, c);
        case DeliverToB => l' := DeliverToBStep(l, c);
      }
    }
  }

  lemma {:induction false} RunKeepsInv(net: Net, c: Config, acts: seq<Action>)
    requires c.Valid() && Inv(net, c)
    ensures Run(net, acts).Running? && Inv(Run(net, acts).net, c)
    decreases |acts|
  {
    if acts != [] {
      Step(net, c, acts[0]);
      RunKeepsInv(Next(net, acts[0]).net, c, acts[1..]);
    }
  }

  lemma {:induction false} InStepConnected(net: Net)
    requires InStep(net)
    ensures Inv(net, Config(net.b.rcv.irs, net.a.rcv.irs, net.a.rcv.wnd, net.b.rcv.wnd))
  {
    var c := Config(net.b.rcv.irs, net.a.rcv.irs, net.a.rcv.wnd, net.b.rcv.wnd);
    var a := Ideal.IBlock(net.a.snd.iss, net.a.snd.una, net.a.snd.nxt, net.a.snd.wnd, net.a.rcv.irs, net.a.rcv.nxt,
                          net.a.rcv.wnd, net.a.rstPtr, NO_FLAGS, NO_FLAGS, Established, false);
    var b := Ideal.IBlock(net.b.snd.iss, net.b.snd.una, net.b.snd.nxt, net.b.snd.wnd, net.b.rcv.irs, net.b.rcv.nxt,
                          net.b.rcv.wnd, net.b.rstPtr, NO_FLAGS, NO_FLAGS, Established, false);
    var l := INet(a, b, [], [], a.rcvNxt, a.rcvNxt + a.rcvWnd, b.rcvNxt, b.rcvNxt + b.rcvWnd);
    assert Connected(l, c);
    assert net == WrapNet(l);
  }

  // ---------------------------------------------------------------------------------------------
  // The results, in the program's own terms

  /** Each established side knows the other's initial number, each next number expected is the
      peer's next number to send less what is in flight, and no more than a window is in flight. */
  predicate Agreement(net: Net, c: Config) {
    net.a.state.Established? && net.b.state.Established? ==>
      && net.a.rcv.irs == c.issB && net.b.rcv.irs == c.issA
      && Octets(net.ab) <= MAX_WINDOW && Add(net.b.rcv.nxt, Octets(net.ab)) == net.a.snd.nxt
      && Octets(net.ba) <= MAX_WINDOW && Add(net.a.rcv.nxt, Octets(net.ba)) == net.b.snd.nxt
      && net.a.snd.InFlight() <= net.a.snd.wnd && net.b.snd.InFlight() <= net.b.snd.wnd
  }

  lemma {:induction false} OctetsTotal(q: seq<Ideal.Seg>, from: Mark, to: Mark)
    requires Chain(q, from, to)
    ensures Octets(WrapQueue(q)) == Total(q)
  {
    if q != [] {
      WrapQueueTail(q);
      LenAgrees(q[0]);
      OctetsTotal(q[1..], After(q[0]), to);
    }
  }

  lemma {:induction false} FlowAgreement(x: Ideal.IBlock, y: Ideal.IBlock, q: seq<Ideal.Seg>, ack: int, edge: int,
                                         q': seq<Ideal.Seg>, ack': int, edge': int)
    requires Quiet(x) && Quiet(y) && x.state.Established?
    requires Flow(x, y, q, ack, edge) && Flow(y, x, q', ack', edge')
    ensures Octets(WrapQueue(q)) <= MAX_WINDOW
    ensures Add(Wrap(y.rcvNxt), Octets(WrapQueue(q))) == Wrap(x.nxt)
    ensures WrapBlock(x).snd.InFlight() <= x.sndWnd
  {
    var to := Mark(x.nxt, ack, edge);
    ChainTotal(q, Known(y), to);
    OctetsTotal(q, Known(y), to);
    ChainMonotone(q', Known(x), Mark(y.nxt, ack', edge'));
    ChainMonotone(q, Known(y), to);
    AddIsShift(y.rcvNxt, Total(q));
    SizeofIsDistance(x.una, x.nxt);
  }

  lemma {:induction false} InvAgreement(net: Net, c: Config)
    requires c.Valid() && Inv(net, c)
    ensures Agreement(net, c)
  {
    if net.a.state.Established? && net.b.state.Established? {
      var l: INet :| net == WrapNet(l) && Connected(l, c);
      FlowAgreement(l.a, l.b, l.ab, l.ackA, l.edgeA, l.ba, l.ackB, l.edgeB);
      FlowAgreement(l.b, l.a, l.ba, l.ackB, l.edgeB, l.ab, l.ackA, l.edgeA);
      WrapOfValue(c.issA);
      WrapOfValue(c.issB);
    }
  }

  /** Handshake agreement and data transfer: in every run from Open, for all initial numbers and windows,
      no segment is refused by its sender's Send or by its receiver's Recv, and both sides agree. */
  lemma {:induction false} OpenedNeverRejects(c: Config, acts: seq<Action>)
    requires c.Valid()
    ensures Run(Opened(c), acts).Running? && Agreement(Run(Opened(c), acts).net, c)
  {
    RunKeepsInv(Opened(c), c, acts);
    InvAgreement(Run(Opened(c), acts).net, c);
  }

  /** A pure acknowledgment at the head of the queue advances what its receiver y has acknowledged. */
  predicate AckAdvances(y: Block, q: seq<Segment>) {
    q != [] && q[0].dataLen == 0 ==> LessThan(y.snd.una, Recv(y, q[0]).block.snd.una)
  }

  lemma {:induction false} PureAck(x: Ideal.IBlock, y: Ideal.IBlock, q: seq<Ideal.Seg>, ack: int, edge: int,
                                   q': seq<Ideal.Seg>, ack': int, edge': int)
    requires Quiet(x) && Quiet(y) && x.state.Established? && y.state.Established?
    requires Flow(x, y, q, ack, edge) && Flow(y, x, q', ack', edge')
    ensures AckAdvances(WrapBlock(y), WrapQueue(q))
  {
    if q != [] && q[0].dataLen == 0 {
      HeadFits(x, y, q, ack, edge, q', ack', edge');
      LessThanIsOrder(y.una, q[0].ackno);
      var y' := Deliver(x, y, q, ack, edge, q', ack', edge');
      RecvRefines(y, q[0]);
    }
  }

  /** The pure acknowledgments next to arrive advance what their receivers have acknowledged. */
  predicate AcksAdvance(net: Net) {
    net.a.state.Established? && net.b.state.Established? ==> AckAdvances(net.b, net.ab) && AckAdvances(net.a, net.ba)
  }

  lemma {:induction false} InvAcksAdvance(net: Net, c: Config)
    requires c.Valid() && Inv(net, c)
    ensures AcksAdvance(net)
  {
    if net.a.state.Established? && net.b.state.Established? {
      var l: INet :| net == WrapNet(l) && Connected(l, c);
      PureAck(l.a, l.b, l.ab, l.ackA, l.edgeA, l.ba, l.ackB, l.edgeB);
      PureAck(l.b, l.a, l.ba, l.ackB, l.edgeB, l.ab, l.ackA, l.edgeA);
    }
  }

  /** In every run every pure acknowledgment that reaches an established side strictly advances what it has
      acknowledged: the duplicate-ACK drop is never taken. */
  lemma {:induction false} PureAckAdvances(c: Config, acts: seq<Action>)
    requires c.Valid()
    ensures Run(Opened(c), acts).Running? && AcksAdvance(Run(Opened(c), acts).net)
  {
    RunKeepsInv(Opened(c), c, acts);
    InvAcksAdvance(Run(Opened(c), acts).net, c);
  }

  /** The same from any two established blocks in step. */
  lemma {:induction false} EstablishedNeverRejects(net: Net, acts: seq<Action>)
    requires InStep(net)
    ensures Run(net, acts).Running? && AcksAdvance(Run(net, acts).net)
    ensures Agreement(Run(net, acts).net, Config(net.b.rcv.irs, net.a.rcv.irs, net.a.rcv.wnd, net.b.rcv.wnd))
  {
    var c := Config(net.b.rcv.irs, net.a.rcv.irs, net.a.rcv.wnd, net.b.rcv.wnd);
    InStepConnected(net);
    RunKeepsInv(net, c, acts);
    InvAgreement(Run(net, acts).net, c);
    InvAcksAdvance(Run(net, acts).net, c);
  }

  lemma {:induction false} RunStep(net: Net, acts: seq<Action>, net': Net)
    requires acts != [] && Next(net, acts[0]) == Running(net')
    ensures Run(net, acts) == Run(net', acts[1..])
  {
  }

  /** The SYN goes out and arrives. */
  lemma {:induction false} SynExchanged(c: Config, rest: seq<Action>)
    requires c.Valid()
    ensures Run(Opened(c), [EmitA(0), DeliverToB] + rest) == Run(Net(SynSentA(c), SynRcvdB(c), [], []), rest)
  {
    var n1 := Opened(c).(a := SynSentA(c), ab := [Syn(c)]);
    assert ([EmitA(0), DeliverToB] + rest)[1..] == [DeliverToB] + rest && ([DeliverToB] + rest)[1..] == rest;
    RunStep(Opened(c), [EmitA(0), DeliverToB] + rest, n1);
    RunStep(n1, [DeliverToB] + rest, Net(SynSentA(c), SynRcvdB(c), [], []));
  }

  /** The SYN|ACK goes out and arrives. */
  lemma {:induction false} SynAckExchanged(c: Config, rest: seq<Action>)
    requires c.Valid()
    ensures Run(Net(SynSentA(c), SynRcvdB(c), [], []), [EmitB(0), DeliverToA] + rest)
            == Run(Net(EstablishedA(SynSentA(c), c), SynAckSentB(c), [], []), rest)
  {
    OpenerTakesSynAck(SynSentA(c), c);
    var n3 := Net(SynSentA(c), SynAckSentB(c), [], [SynAck(c)]);
    assert ([EmitB(0), DeliverToA] + rest)[1..] == [DeliverToA] + rest && ([DeliverToA] + rest)[1..] == rest;
    RunStep(Net(SynSentA(c), SynRcvdB(c), [], []), [EmitB(0), DeliverToA] + rest, n3);
    RunStep(n3, [DeliverToA] + rest, Net(EstablishedA(SynSentA(c), c), SynAckSentB(c), [], []));
  }

  /** The final acknowledgment goes out and arrives. */
  lemma {:induction false} AckExchanged(c: Config) returns (end: Net)
    requires c.Valid()
    ensures Run(Net(EstablishedA(SynSentA(c), c), SynAckSentB(c), [], []), [EmitA(0), DeliverToB]) == Running(end)
    ensures InStep(end)
  {
    var a := EstablishedA(SynSentA(c), c);
    var n5 := Net(a.(pending0 := NO_FLAGS), SynAckSentB(c), [FinalAckSeg(c)], []);
    OpenerAcknowledges(SynSentA(c), c);
    ListenerTakesAck(SynAckSentB(c), c);
    end := Next(n5, DeliverToB).net;
    assert [EmitA(0), DeliverToB][1..] == [DeliverToB] && [DeliverToB][1..] == [];
    RunStep(Net(a, SynAckSentB(c), [], []), [EmitA(0), DeliverToB], n5);
    RunStep(n5, [DeliverToB], end);
  }

  /** The shortest run completes the handshake, for all initial numbers and windows, and leaves the
      two sides in step. */
  lemma {:induction false} HandshakeCompletes(c: Config)
    requires c.Valid()
    ensures var acts := [EmitA(0), DeliverToB, EmitB(0), DeliverToA, EmitA(0), DeliverToB];
            Run(Opened(c), acts).Running? && InStep(Run(Opened(c), acts).net)
  {
    var acts := [EmitA(0), DeliverToB, EmitB(0), DeliverToA, EmitA(0), DeliverToB];
    var last := [EmitA(0), DeliverToB];
    var end := AckExchanged(c);
    SynAckExchanged(c, last);
    SynExchanged(c, [EmitB(0), DeliverToA] + last);
    assert acts == [EmitA(0), DeliverToB] + ([EmitB(0), DeliverToA] + last);
  }
}
