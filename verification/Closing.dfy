/** Closing an established pair with nothing in flight, over FIFO queues (section 3.6 of RFC 9293): normal and
    simultaneous close, with Close called in any state, in every interleaving. */
module ClosingPair {
  import opened SeqNum
  import opened Segments
  import opened Control
  import opened Pair

  datatype Move = CloseA | CloseB | SendA | SendB | RecvA | RecvB

  /** The same net with the sides exchanged. */
  function Swap(net: Net): Net {
    Net(net.b, net.a, net.ba, net.ab)
  }

  function SwapStatus(s: Status): Status {
    match s
    case Running(net) => Running(Swap(net))
    case _ => s
  }

  /** The user may close in any state; only control segments are sent; arrivals at a closed block and segments
      that are refused are discarded, as the connection layer does. */
  function MoveA(net: Net, m: Move): Status {
    match m
    case CloseA => Running(net.(a := Close(net.a).block))
    case SendA =>
      (match EmitPending(net.a, 0)
       case Idle(a) => Running(net.(a := a))
       case Sent(a, seg) => Running(net.(a := a, ab := net.ab + [seg]))
       case Fault(_, seg, err) => Rejected(seg, err)
       case Crash => Panicked)
    case _ =>
      if net.ba == [] then Running(net)
      else if net.a.state.IsClosed() then Running(net.(ba := net.ba[1..]))
      else
        var r := Recv(net.a, net.ba[0]);
        if r.err == PanicUnexpectedState then Panicked else Running(net.(a := r.block, ba := net.ba[1..]))
  }

  /** The move delivers a segment that side A refuses. */
  predicate RefusedA(net: Net, m: Move) {
    m.RecvA? && net.ba != [] && !net.a.state.IsClosed() && Recv(net.a, net.ba[0]).err != NoError
  }

  function Mirror(m: Move): Move {
    match m
    case CloseA => CloseB
    case CloseB => CloseA
    case SendA => SendB
    case SendB => SendA
    case RecvA => RecvB
    case RecvB => RecvA
  }

  predicate OfA(m: Move) {
    m.CloseA? || m.SendA? || m.RecvA?
  }

  function Next(net: Net, m: Move): Status {
    if OfA(m) then MoveA(net, m) else SwapStatus(MoveA(Swap(net), Mirror(m)))
  }

  predicate Refused(net: Net, m: Move) {
    if OfA(m) then RefusedA(net, m) else RefusedA(Swap(net), Mirror(m))
  }

  // ---------------------------------------------------------------------------------------------
  // Stages of one side, and what is in flight

  datatype Stage = E | EC | F1 | F2a | F2 | CGa | TWa | TW | CW0 | CWF | CW1 | LF | LK | LA | CL

  /** FIN|ACK and ACK segments; the digits say whether the sender had sent its FIN before, and whether it
      acknowledges its peer's. A FIN without ACK comes from a Close in CloseWait. */
  datatype Msg = Fin00 | Fin01 | Ack01 | Ack10 | Ack11 | Bare

  datatype Queue = Empty | One(m: Msg) | Two(m: Msg, n: Msg) | Three(m: Msg, n: Msg, o: Msg)

  function StateOf(s: Stage): State {
    match s
    case E => Established
    case EC => Established
    case F1 => FinWait1
    case F2a => FinWait2
    case F2 => FinWait2
    case CGa => Closing
    case TWa => TimeWait
    case TW => TimeWait
    case CW0 => CloseWait
    case CWF => CloseWait
    case CW1 => CloseWait
    case LF => LastAck
    case LK => LastAck
    case LA => LastAck
    case CL => Closed
  }

  function PendingOf(s: Stage): Flags {
    match s
    case EC => FIN
    case F2a => ACK
    case CGa => ACK
    case TWa => ACK
    case CW0 => ACK
    case CWF => FINACK
    case CW1 => FINACK
    case LF => FIN
    case LK => ACK
    case _ => NO_FLAGS
  }

  function SecondOf(s: Stage): Flags {
    if s.CW0? || s.CWF? then FIN else if s.LF? then ACK else NO_FLAGS
  }

  function FlagsOf(m: Msg): Flags {
    if m.Fin00? || m.Fin01? then FINACK else if m.Bare? then FIN else ACK
  }

  /** Whether the side's FIN has been sent, and its peer's received. */
  function FinSent(s: Stage): Size {
    if s.F1? || s.F2a? || s.F2? || s.CGa? || s.TWa? || s.TW? || s.LK? || s.LA? then 1 else 0
  }

  function FinGot(s: Stage): Size {
    if s.E? || s.EC? || s.F1? || s.F2a? || s.F2? then 0 else 1
  }

  function MsgSent(m: Msg): Size {
    if m.Ack10? || m.Ack11? then 1 else 0
  }

  function MsgGot(m: Msg): Size {
    if m.Fin00? || m.Ack10? then 0 else 1
  }

  /** Block b is at stage s, its own numbers counting from v and its peer's from w. */
  predicate At(b: Block, s: Stage, v: Value, w: Value) {
    && b.state == StateOf(s) && b.pending0 == PendingOf(s) && !b.challengeAck
    && b.pending1 == SecondOf(s)
    && (!s.CL? ==> b.snd.nxt == Add(v, FinSent(s)) && b.rcv.nxt == Add(w, FinGot(s)) && b.rcv.wnd <= MAX_WINDOW)
    && (s.E? || s.EC? ==> b.snd.una == v)
  }

  /** The segment is message m from a side counting from v to one counting from w. */
  predicate Is(seg: Segment, m: Msg, v: Value, w: Value) {
    && seg.seqno == Add(v, MsgSent(m)) && seg.ackno == (if m.Bare? then 0 else Add(w, MsgGot(m)))
    && seg.dataLen == 0 && seg.wnd <= MAX_WINDOW
    && seg.flags == FlagsOf(m)
  }

  predicate Holds(q: seq<Segment>, k: Queue, v: Value, w: Value) {
    match k
    case Empty => q == []
    case One(m) => |q| == 1 && Is(q[0], m, v, w)
    case Two(m, n) => |q| == 2 && Is(q[0], m, v, w) && Is(q[1], n, v, w)
    case Three(m, n, o) => |q| == 3 && Is(q[0], m, v, w) && Is(q[1], n, v, w) && Is(q[2], o, v, w)
  }

  /** What a stage sends next, and the stage it then is in. */
  function Sends(s: Stage): (Stage, Msg)
    requires PendingOf(s) != NO_FLAGS
  {
    match s
    case EC => (F1, Fin00)
    case F2a => (F2, Ack10)
    case CGa => (TW, Ack11)
    case TWa => (TW, Ack11)
    case CW0 => (CW1, Ack01)
    case CWF => (LA, Fin01)
    case CW1 => (LA, Fin01)
    case LF => (LK, Bare)
    case LK => (LA, Ack11)
  }

  /** The messages a stage may meet and accepts. */
  predicate Expects(s: Stage, m: Msg) {
    match s
    case E => m.Fin00?
    case EC => m.Fin00?
    case F1 => m.Fin00? || m.Fin01? || m.Ack01? || m.Bare?
    case F2a => m.Fin01?
    case F2 => m.Fin01?
    case CGa => m.Ack11?
    case CW1 => m.Ack10?
    case LF => m.Ack10?
    case LK => m.Ack10? || m.Ack11?
    case LA => m.Ack10? || m.Ack11?
    case TWa => true
    case TW => true
    case CL => true
    case _ => false
  }

  /** The messages a stage may meet and refuses: in FinWait2, what a Close in CloseWait sends. */
  predicate Declines(s: Stage, m: Msg) {
    (s.F2a? || s.F2?) && (m.Bare? || m.Ack11?)
  }

  /** Where a message takes a stage. */
  function Takes(s: Stage, m: Msg): Stage {
    match s
    case E => CW0
    case EC => CWF
    case F1 => if m.Fin00? || m.Bare? then CGa else if m.Fin01? then TWa else F2a
    case F2a => if m.Fin01? then TWa else F2a
    case F2 => if m.Fin01? then TWa else F2
    case CGa => TWa
    case LF => CL
    case LK => CL
    case LA => CL
    case _ => s
  }

  lemma {:induction false} OfferAt(b: Block, s: Stage, v: Value, w: Value)
    requires At(b, s, v, w)
    ensures PendingOf(s) == NO_FLAGS ==> EmitPending(b, 0) == Idle(b)
    ensures PendingOf(s) != NO_FLAGS ==>
              && PendingSegment(b, 0).0 == b && PendingSegment(b, 0).1.Offered?
              && Is(PendingSegment(b, 0).1.seg, Sends(s).1, v, w)
              && CheckOutgoing(b, PendingSegment(b, 0).1.seg) == NoError
  {
    if PendingOf(s) != NO_FLAGS {
      var f := if s.EC? then FINACK else PendingOf(s);
      ControlOffer(b, f);
      OfferIs(b, s, v, w, f);
    }
  }

  /** A block with flags pending offers them, at its next number. */
  lemma {:induction false} ControlOffer(b: Block, f: Flags)
    requires !b.challengeAck && b.pending0 != NO_FLAGS && !b.pending0.rst && !b.pending0.syn && !b.state.Closed?
    requires f == if b.state.Established? then b.pending0.Or(ACK) else b.pending0
    requires b.rcv.wnd <= MAX_WINDOW
    ensures var seg := Segment(b.snd.nxt, if f.ack then b.rcv.nxt else 0, 0, b.rcv.wnd, f);
            PendingSegment(b, 0) == (b, Offered(seg)) && CheckOutgoing(b, seg) == NoError
  {
  }

  lemma {:induction false} OfferIs(b: Block, s: Stage, v: Value, w: Value, f: Flags)
    requires At(b, s, v, w) && PendingOf(s) != NO_FLAGS && f == (if s.EC? then FINACK else PendingOf(s))
    ensures Is(Segment(b.snd.nxt, if f.ack then b.rcv.nxt else 0, 0, b.rcv.wnd, f), Sends(s).1, v, w)
  {
    match s {
      case EC =>
      case F2a =>
      case CGa =>
      case TWa =>
      case CW0 =>
      case CWF =>
      case CW1 =>
      case LF =>
      case LK =>
    }
  }

  /** The flags and state after a stage has sent its message are those of the stage it then is in. */
  predicate QueueMoves(s: Stage, t: Stage, flags: Flags) {
    var (p0, p1) := Advance(PendingOf(s), SecondOf(s), flags);
    && p0.Or(NewlyPending(StateOf(s), flags)) == PendingOf(t) && p1 == SecondOf(t)
    && StateAfterSend(StateOf(s), flags) == StateOf(t)
  }

  /** When everything pending is sent, and no FIN|ACK is queued, the second slot moves up. */
  lemma {:induction false} SlotMovesUp(state: State, p0: Flags, p1: Flags, flags: Flags)
    requires flags.HasAll(p0) && (state.CloseWait? ==> flags.fin)
    ensures Advance(p0, p1, flags) == (p1.Without(flags.And(FIN)), NO_FLAGS)
    ensures Advance(p0, p1, flags).0.Or(NewlyPending(state, flags)) == p1.Without(flags.And(FIN))
  {
    WithoutAll(p0, flags);
    OrNothing(p1.Without(flags.And(FIN)));
  }

  lemma {:induction false} QueueClosing()
    ensures QueueMoves(EC, F1, FINACK)
  {
    SlotMovesUp(Established, FIN, NO_FLAGS, FINACK);
    WithoutAll(NO_FLAGS, FINACK.And(FIN));
  }

  lemma {:induction false} QueueFinWait2()
    ensures QueueMoves(F2a, F2, ACK)
  {
    SlotMovesUp(FinWait2, ACK, NO_FLAGS, ACK);
    WithoutAll(NO_FLAGS, ACK.And(FIN));
  }

  lemma {:induction false} QueueSimultaneous()
    ensures QueueMoves(CGa, TW, ACK)
  {
    SlotMovesUp(State.Closing, ACK, NO_FLAGS, ACK);
    WithoutAll(NO_FLAGS, ACK.And(FIN));
  }

  lemma {:induction false} QueueTimeWait()
    ensures QueueMoves(TWa, TW, ACK)
  {
    SlotMovesUp(TimeWait, ACK, NO_FLAGS, ACK);
    WithoutAll(NO_FLAGS, ACK.And(FIN));
  }

  lemma {:induction false} QueueCloseWait()
    ensures QueueMoves(CW0, CW1, ACK)
  {
    WithoutAll(ACK, ACK);
    assert FIN.Without(ACK.And(FIN)) == FIN && FIN.Or(FINACK) == FINACK;
  }

  lemma {:induction false} QueueFin()
    ensures QueueMoves(CWF, LA, FINACK)
  {
    SlotMovesUp(CloseWait, FINACK, FIN, FINACK);
    WithoutAll(FIN, FINACK.And(FIN));
  }

  lemma {:induction false} QueueFinAck()
    ensures QueueMoves(CW1, LA, FINACK)
  {
    SlotMovesUp(CloseWait, FINACK, NO_FLAGS, FINACK);
    WithoutAll(NO_FLAGS, FINACK.And(FIN));
  }

  lemma {:induction false} QueueBare()
    ensures QueueMoves(LF, LK, FIN)
  {
    SlotMovesUp(LastAck, FIN, ACK, FIN);
    assert ACK.Without(FIN.And(FIN)) == ACK;
  }

  lemma {:induction false} QueueLastAck()
    ensures QueueMoves(LK, LA, ACK)
  {
    SlotMovesUp(LastAck, ACK, NO_FLAGS, ACK);
    WithoutAll(NO_FLAGS, ACK.And(FIN));
  }

  lemma {:induction false} QueueAt(s: Stage)
    requires PendingOf(s) != NO_FLAGS
    ensures QueueMoves(s, Sends(s).0, FlagsOf(Sends(s).1))
  {
    match s {
      case EC => QueueClosing();
      case F2a => QueueFinWait2();
      case CGa => QueueSimultaneous();
      case TWa => QueueTimeWait();
      case CW0 => QueueCloseWait();
      case CWF => QueueFin();
      case CW1 => QueueFinAck();
      case LF => QueueBare();
      case LK => QueueLastAck();
    }
  }

  lemma {:induction false} NumbersAt(s: Stage, v: Value, seg: Segment, w: Value)
    requires PendingOf(s) != NO_FLAGS && Is(seg, Sends(s).1, v, w)
    ensures Add(Add(v, FinSent(s)), seg.Len()) == Add(v, FinSent(Sends(s).0))
    ensures FinGot(s) == FinGot(Sends(s).0) && !Sends(s).0.E? && !Sends(s).0.EC?
  {
  }

  lemma {:induction false} CommitAt(b: Block, s: Stage, v: Value, w: Value, seg: Segment)
    requires At(b, s, v, w) && PendingOf(s) != NO_FLAGS && Is(seg, Sends(s).1, v, w)
    ensures At(Commit(b, seg), Sends(s).0, v, w)
  {
    QueueAt(s);
    NumbersAt(s, v, seg, w);
  }

  lemma {:induction false} SendAt(b: Block, s: Stage, v: Value, w: Value)
    requires At(b, s, v, w) && PendingOf(s) != NO_FLAGS
    ensures EmitPending(b, 0).Sent?
    ensures Is(EmitPending(b, 0).seg, Sends(s).1, v, w) && At(EmitPending(b, 0).block, Sends(s).0, v, w)
  {
    OfferAt(b, s, v, w);
    CommitAt(b, s, v, w, PendingSegment(b, 0).1.seg);
  }

  lemma {:induction false} ValidAt(b: Block, s: Stage, v: Value, w: Value, seg: Segment, m: Msg)
    requires At(b, s, v, w) && !b.state.IsClosed() && Expects(s, m) && Is(seg, m, w, v)
    ensures ValidateIncoming(b, seg) == Result(b, NoError)
  {
  }

  lemma {:induction false} HandleAt(b: Block, s: Stage, v: Value, w: Value, seg: Segment, m: Msg)
    requires At(b, s, v, w) && !b.state.IsClosed() && Expects(s, m) && Is(seg, m, w, v)
    ensures var h := Handle(b, seg);
            h.err == NoError && At(Accept(h.block, seg, h.pending), Takes(s, m), v, w)
  {
    if s.E? || s.EC? {
      HandleOpenAt(b, s, v, w, seg, m);
    } else if s.F1? {
      HandleWaitAt(b, v, w, seg, m);
    } else if s.F2a? || s.F2? {
      HandleFinalAt(b, s, v, w, seg, m);
    } else if s.CGa? {
      HandleClosingAt(b, v, w, seg, m);
    } else {
      HandlePassiveAt(b, s, v, w, seg, m);
    }
  }

  lemma {:induction false} HandleFinalAt(b: Block, s: Stage, v: Value, w: Value, seg: Segment, m: Msg)
    requires At(b, s, v, w) && (s.F2a? || s.F2?) && Expects(s, m) && Is(seg, m, w, v)
    ensures var h := Handle(b, seg);
            h.err == NoError && At(Accept(h.block, seg, h.pending), Takes(s, m), v, w)
  {
    OrNothing(ACK);
    assert ACK.Or(ACK) == ACK;
  }

  lemma {:induction false} HandleClosingAt(b: Block, v: Value, w: Value, seg: Segment, m: Msg)
    requires At(b, CGa, v, w) && Expects(CGa, m) && Is(seg, m, w, v)
    ensures var h := Handle(b, seg);
            h.err == NoError && At(Accept(h.block, seg, h.pending), Takes(CGa, m), v, w)
  {
    OrNothing(ACK);
  }

  lemma {:induction false} HandlePassiveAt(b: Block, s: Stage, v: Value, w: Value, seg: Segment, m: Msg)
    requires At(b, s, v, w) && (s.CW1? || s.LF? || s.LK? || s.LA?) && Expects(s, m) && Is(seg, m, w, v)
    ensures var h := Handle(b, seg);
            h.err == NoError && At(Accept(h.block, seg, h.pending), Takes(s, m), v, w)
  {
    OrNothing(NO_FLAGS);
    OrNothing(FINACK);
  }

  lemma {:induction false} HandleOpenAt(b: Block, s: Stage, v: Value, w: Value, seg: Segment, m: Msg)
    requires At(b, s, v, w) && (s.E? || s.EC?) && Expects(s, m) && Is(seg, m, w, v)
    ensures var h := Handle(b, seg);
            h.err == NoError && At(Accept(h.block, seg, h.pending), Takes(s, m), v, w)
  {
  }

  lemma {:induction false} HandleWaitAt(b: Block, v: Value, w: Value, seg: Segment, m: Msg)
    requires At(b, F1, v, w) && Expects(F1, m) && Is(seg, m, w, v)
    ensures var h := Handle(b, seg);
            h.err == NoError && At(Accept(h.block, seg, h.pending), Takes(F1, m), v, w)
  {
  }

  lemma {:induction false} RecvAt(b: Block, s: Stage, v: Value, w: Value, seg: Segment, m: Msg)
    requires At(b, s, v, w) && !b.state.IsClosed() && Expects(s, m) && Is(seg, m, w, v)
    ensures Recv(b, seg).err == NoError && At(Recv(b, seg).block, Takes(s, m), v, w)
  {
    ValidAt(b, s, v, w, seg, m);
    HandleAt(b, s, v, w, seg, m);
  }

  lemma {:induction false} RefusedAt(b: Block, s: Stage, v: Value, w: Value, seg: Segment, m: Msg)
    requires At(b, s, v, w) && Declines(s, m) && Is(seg, m, w, v)
    ensures Recv(b, seg).err != NoError && Recv(b, seg).err != PanicUnexpectedState && Recv(b, seg).block == b
  {
    TakesOnlyFinAck(b, seg);
  }

  /** A message that arrives takes a stage where it is expected to, or is refused. */
  lemma {:induction false} ArrivesAt(b: Block, s: Stage, v: Value, w: Value, seg: Segment, m: Msg, r: Result)
    requires At(b, s, v, w) && !b.state.IsClosed() && (Expects(s, m) || Declines(s, m)) && Is(seg, m, w, v)
    requires r == Recv(b, seg)
    ensures r.err != PanicUnexpectedState && At(r.block, Takes(s, m), v, w) && (Expects(s, m) ==> r.err == NoError)
  {
    if Declines(s, m) {
      RefusedAt(b, s, v, w, seg, m);
    } else {
      RecvAt(b, s, v, w, seg, m);
    }
  }

  /** A block in FinWait2 takes what passes the window checks and has both FIN and ACK, and nothing else; what it
      refuses leaves it as it was. */
  lemma {:induction false} TakesOnlyFinAck(x: Block, seg: Segment)
    requires x.state.FinWait2? && !seg.flags.rst
    ensures Recv(x, seg).err == NoError <==> CheckIncoming(x, seg) == NoError && seg.flags.fin && seg.flags.ack
    ensures Recv(x, seg).err != NoError ==> Recv(x, seg).block == x && Recv(x, seg).err != PanicUnexpectedState
  {
  }

  // ---------------------------------------------------------------------------------------------
  // Both sides

  /** The stages of the two sides with what is in flight from the first to the second and back. */
  datatype Joint = Joint(a: Stage, b: Stage, ab: Queue, ba: Queue)

  function SwapJoint(j: Joint): Joint {
    Joint(j.b, j.a, j.ba, j.ab)
  }

  /** The situations that arise while nobody has closed late, up to exchanging the sides. */
  predicate Listed(j: Joint) {
    match (j.a, j.b)
    case (E, E) => j.ab.Empty? && j.ba.Empty?
    case (E, EC) => j.ab.Empty? && j.ba.Empty?
    case (EC, EC) => j.ab.Empty? && j.ba.Empty?
    case (E, F1) => j.ab.Empty? && j.ba == One(Fin00)
    case (EC, F1) => j.ab.Empty? && j.ba == One(Fin00)
    case (F1, F1) => j.ab == One(Fin00) && j.ba == One(Fin00)
    case (CW0, F1) => j.ab.Empty? && j.ba.Empty?
    case (CWF, F1) => j.ab.Empty? && j.ba.Empty?
    case (CW1, F1) => j.ab == One(Ack01) && j.ba.Empty?
    case (CW1, F2a) => j.ab.Empty? && j.ba.Empty?
    case (CW1, F2) => j.ab.Empty? && (j.ba.Empty? || j.ba == One(Ack10))
    case (LF, F1) => j.ab.Empty? && j.ba.Empty?
    case (LK, F1) => j.ab == One(Bare) && j.ba.Empty?
    case (LK, CGa) => j.ab.Empty? && j.ba.Empty?
    case (LK, TW) => j.ab.Empty? && j.ba == One(Ack11)
    case (LA, F1) => (j.ab == One(Fin01) || j.ab == Two(Ack01, Fin01) || j.ab == Two(Bare, Ack11)) && j.ba.Empty?
    case (LA, F2a) => j.ab == One(Fin01) && j.ba.Empty?
    case (LA, F2) => j.ab == One(Fin01) && (j.ba.Empty? || j.ba == One(Ack10))
    case (LA, CGa) => j.ab == One(Ack11) && j.ba.Empty?
    case (LA, TWa) => j.ab.Empty? && (j.ba.Empty? || j.ba == One(Ack10))
    case (LA, TW) =>
      || (j.ab.Empty? && (j.ba == One(Ack11) || j.ba == Two(Ack10, Ack11)))
      || (j.ab == One(Ack11) && j.ba == One(Ack11))
    case (CL, F2) => j.ab == One(Fin01) && j.ba.Empty?
    case (CL, TWa) => j.ab.Empty? && j.ba.Empty?
    case (CL, TW) => (j.ab.Empty? && (j.ba.Empty? || j.ba == One(Ack11))) || (j.ab == One(Ack11) && j.ba.Empty?)
    case (CGa, F1) => j.ab == One(Fin00) && j.ba.Empty?
    case (CGa, CGa) => j.ab.Empty? && j.ba.Empty?
    case (F1, TW) => j.ab.Empty? && j.ba == Two(Fin00, Ack11)
    case (CGa, TW) => j.ab.Empty? && j.ba == One(Ack11)
    case (TW, TWa) => j.ab.Empty? && j.ba.Empty?
    case (TW, TW) => (j.ab.Empty? || j.ab == One(Ack11)) && (j.ba.Empty? || j.ba == One(Ack11))
    case _ => false
  }

  /** The situations that arise once side A has closed late: its FIN without ACK and its ACK without FIN are ahead
      of a peer that is in FinWait2 or will be before they arrive. */
  predicate Late(j: Joint) {
    match (j.a, j.b)
    case (LF, F1) => j.ab == One(Ack01) && j.ba.Empty?
    case (LK, F1) => j.ab == Two(Ack01, Bare) && j.ba.Empty?
    case (LA, F1) => j.ab == Three(Ack01, Bare, Ack11) && j.ba.Empty?
    case (LF, F2a) => j.ab.Empty? && j.ba.Empty?
    case (LK, F2a) => (j.ab.Empty? || j.ab == One(Bare)) && j.ba.Empty?
    case (LA, F2a) => (j.ab.Empty? || j.ab == One(Ack11) || j.ab == Two(Bare, Ack11)) && j.ba.Empty?
    case (LF, F2) => j.ab.Empty? && (j.ba.Empty? || j.ba == One(Ack10))
    case (LK, F2) => (j.ab.Empty? || j.ab == One(Bare)) && (j.ba.Empty? || j.ba == One(Ack10))
    case (LA, F2) =>
      (j.ab.Empty? || j.ab == One(Ack11) || j.ab == Two(Bare, Ack11)) && (j.ba.Empty? || j.ba == One(Ack10))
    case (CL, F2) => (j.ab.Empty? || j.ab == One(Bare) || j.ab == One(Ack11) || j.ab == Two(Bare, Ack11)) && j.ba.Empty?
    case _ => false
  }

  predicate Orderly(j: Joint) {
    Listed(j) || Listed(SwapJoint(j))
  }

  predicate Arises(j: Joint) {
    Orderly(j) || Late(j) || Late(SwapJoint(j))
  }

  function Push(q: Queue, m: Msg): Queue {
    match q
    case Empty => One(m)
    case One(k) => Two(k, m)
    case Two(k, n) => Three(k, n, m)
    case Three(k, n, _) => Three(k, n, m)
  }

  function Pop(q: Queue): Queue {
    match q
    case Three(_, n, o) => Two(n, o)
    case Two(_, n) => One(n)
    case _ => Empty
  }

  /** Where a Close takes a stage: in CloseWait the queued flags are replaced. */
  function AfterClose(s: Stage): Stage {
    match s
    case E => EC
    case CW0 => LF
    case CWF => LF
    case CW1 => LF
    case _ => s
  }

  /** The kind of situation a move of side A leads to: orderly, or late by one of the sides. */
  predicate Leads(j: Joint, k: Joint, late: bool) {
    && (Orderly(j) ==> if late then Late(k) else Orderly(k))
    && (Late(j) ==> Late(k)) && (Late(SwapJoint(j)) ==> Late(SwapJoint(k)))
  }

  lemma {:induction false} CloseArises(j: Joint)
    requires Arises(j)
    ensures Leads(j, j.(a := AfterClose(j.a)), j.a.CW1?)
  {
  }

  lemma {:induction false} SendArises(j: Joint)
    requires Arises(j) && PendingOf(j.a) != NO_FLAGS
    ensures !j.ab.Three? && Leads(j, j.(a := Sends(j.a).0, ab := Push(j.ab, Sends(j.a).1)), false)
  {
    if Listed(j) {
      SendListed(j);
    }
    if Listed(SwapJoint(j)) {
      SendListedB(j);
    }
    SendLate(j);
  }

  lemma {:induction false} SendListed(j: Joint)
    requires Listed(j) && PendingOf(j.a) != NO_FLAGS
    ensures !j.ab.Three? && Orderly(j.(a := Sends(j.a).0, ab := Push(j.ab, Sends(j.a).1)))
  {
  }

  lemma {:induction false} SendListedB(j: Joint)
    requires Listed(SwapJoint(j)) && PendingOf(j.a) != NO_FLAGS
    ensures !j.ab.Three? && Orderly(j.(a := Sends(j.a).0, ab := Push(j.ab, Sends(j.a).1)))
  {
  }

  lemma {:induction false} SendLate(j: Joint)
    requires PendingOf(j.a) != NO_FLAGS
    ensures var k := j.(a := Sends(j.a).0, ab := Push(j.ab, Sends(j.a).1));
            && (Late(j) ==> Late(k) && !j.ab.Three?)
            && (Late(SwapJoint(j)) ==> Late(SwapJoint(k)) && !j.ab.Three?)
  {
  }

  lemma {:induction false} RecvArises(j: Joint)
    requires Arises(j) && !j.ba.Empty?
    ensures Expects(j.a, j.ba.m) || Declines(j.a, j.ba.m)
    ensures Orderly(j) ==> Expects(j.a, j.ba.m)
    ensures Leads(j, j.(a := Takes(j.a, j.ba.m), ba := Pop(j.ba)), false)
  {
  }

  /** The net is in joint situation j, the sides counting from v and w. */
  predicate Placed(net: Net, j: Joint, v: Value, w: Value) {
    && At(net.a, j.a, v, w) && At(net.b, j.b, w, v)
    && Holds(net.ab, j.ab, v, w) && Holds(net.ba, j.ba, w, v)
  }

  predicate InJoint(net: Net, j: Joint, v: Value, w: Value) {
    Arises(j) && Placed(net, j, v, w)
  }

  /** Where a move of side A takes the joint situation; the same situation, if the move has no effect. */
  function JointMove(j: Joint, m: Move): Joint {
    match m
    case CloseA => j.(a := AfterClose(j.a))
    case SendA => if PendingOf(j.a) != NO_FLAGS then j.(a := Sends(j.a).0, ab := Push(j.ab, Sends(j.a).1)) else j
    case _ => if j.ba.Empty? then j else j.(a := Takes(j.a, j.ba.m), ba := Pop(j.ba))
  }

  /** A Close that comes too late: its side is in CloseWait and has already sent the ACK of its peer's FIN. */
  predicate TooLate(b: Block) {
    b.state.CloseWait? && !b.pending1.fin
  }

  lemma {:induction false} CloseStep(net: Net, j: Joint, v: Value, w: Value)
    requires Placed(net, j, v, w)
    ensures Placed(net.(a := Close(net.a).block), j.(a := AfterClose(j.a)), v, w)
  {
    CloseAt(net.a, j.a, v, w);
  }

  lemma {:induction false} CloseAt(b: Block, s: Stage, v: Value, w: Value)
    requires At(b, s, v, w)
    ensures At(Close(b).block, AfterClose(s), v, w) && (TooLate(b) <==> s.CW1?)
    ensures AfterClose(s) == s ==> Close(b).block == b
  {
    if s.E? || s.EC? {
      CloseEstablished(b, s, v, w);
    } else if s.CW0? || s.CWF? || s.CW1? {
      CloseWaiting(b, s, v, w);
    }
  }

  lemma {:induction false} CloseEstablished(b: Block, s: Stage, v: Value, w: Value)
    requires At(b, s, v, w) && (s.E? || s.EC?)
    ensures At(Close(b).block, EC, v, w) && (s.EC? ==> Close(b).block == b)
  {
    assert NO_FLAGS.And(ACK).Or(FIN) == FIN && FIN.And(ACK).Or(FIN) == FIN;
  }

  lemma {:induction false} CloseWaiting(b: Block, s: Stage, v: Value, w: Value)
    requires At(b, s, v, w) && (s.CW0? || s.CWF? || s.CW1?)
    ensures At(Close(b).block, LF, v, w) && (TooLate(b) <==> s.CW1?)
  {
  }

  lemma {:induction false} SentStep(net: Net, j: Joint, v: Value, w: Value, a: Block, t: Stage, seg: Segment, m: Msg)
    requires Placed(net, j, v, w) && !j.ab.Three? && At(a, t, v, w) && Is(seg, m, v, w)
    ensures Placed(net.(a := a, ab := net.ab + [seg]), j.(a := t, ab := Push(j.ab, m)), v, w)
  {
  }

  lemma {:induction false} SendStep(net: Net, j: Joint, v: Value, w: Value)
    requires Placed(net, j, v, w) && (PendingOf(j.a) != NO_FLAGS ==> !j.ab.Three?)
    ensures MoveA(net, SendA).Running? && Placed(MoveA(net, SendA).net, JointMove(j, SendA), v, w)
  {
    if PendingOf(j.a) != NO_FLAGS {
      SendAt(net.a, j.a, v, w);
      var e := EmitPending(net.a, 0);
      SentStep(net, j, v, w, e.block, Sends(j.a).0, e.seg, Sends(j.a).1);
    } else {
      OfferAt(net.a, j.a, v, w);
    }
  }

  lemma {:induction false} TakenStep(net: Net, j: Joint, v: Value, w: Value, a: Block, t: Stage)
    requires Placed(net, j, v, w) && !j.ba.Empty? && At(a, t, v, w)
    ensures net.ba != [] && Placed(net.(a := a, ba := net.ba[1..]), j.(a := t, ba := Pop(j.ba)), v, w)
  {
  }

  lemma {:induction false} RecvStep(net: Net, j: Joint, v: Value, w: Value)
    requires Placed(net, j, v, w) && (j.ba.Empty? || Expects(j.a, j.ba.m) || Declines(j.a, j.ba.m))
    ensures MoveA(net, RecvA).Running? && Placed(MoveA(net, RecvA).net, JointMove(j, RecvA), v, w)
    ensures j.ba.Empty? || Expects(j.a, j.ba.m) ==> !RefusedA(net, RecvA)
  {
    if !j.ba.Empty? {
      if net.a.state.IsClosed() {
        TakenStep(net, j, v, w, net.a, j.a);
      } else {
        var r := Recv(net.a, net.ba[0]);
        ArrivesAt(net.a, j.a, v, w, net.ba[0], j.ba.m, r);
        TakenStep(net, j, v, w, r.block, Takes(j.a, j.ba.m));
      }
    }
  }

  function JointNext(j: Joint, m: Move): Joint {
    if OfA(m) then JointMove(j, m) else SwapJoint(JointMove(SwapJoint(j), Mirror(m)))
  }

  /** The move is a Close that comes too late, by the first side or by the other. */
  predicate LateMove(net: Net, m: Move, byA: bool) {
    if byA then m.CloseA? && TooLate(net.a) else m.CloseB? && TooLate(net.b)
  }

  /** What kind of situation a move leads to: an orderly one is left only by a late Close, a late one never. */
  predicate Follows(net: Net, j: Joint, m: Move, k: Joint) {
    && (Orderly(j) ==> if LateMove(net, m, true) then Late(k)
                       else if LateMove(net, m, false) then Late(SwapJoint(k))
                       else Orderly(k))
    && (Late(j) ==> Late(k)) && (Late(SwapJoint(j)) ==> Late(SwapJoint(k)))
  }

  /** What kind of joint situation a move of side A leads to. */
  lemma {:induction false} JointLeads(j: Joint, m: Move)
    requires Arises(j) && OfA(m)
    ensures Leads(j, JointMove(j, m), m.CloseA? && j.a.CW1?)
    ensures m.SendA? && PendingOf(j.a) != NO_FLAGS ==> !j.ab.Three?
    ensures m.RecvA? && !j.ba.Empty? ==> Expects(j.a, j.ba.m) || (Declines(j.a, j.ba.m) && !Orderly(j))
  {
    match m {
      case CloseA => CloseArises(j);
      case SendA =>
        if PendingOf(j.a) != NO_FLAGS {
          SendArises(j);
        }
      case RecvA =>
        if !j.ba.Empty? {
          RecvArises(j);
        }
    }
  }

  lemma {:induction false} PlacedA(net: Net, j: Joint, v: Value, w: Value, m: Move)
    requires Placed(net, j, v, w) && OfA(m)
    requires m.SendA? && PendingOf(j.a) != NO_FLAGS ==> !j.ab.Three?
    requires m.RecvA? && !j.ba.Empty? ==> Expects(j.a, j.ba.m) || Declines(j.a, j.ba.m)
    ensures MoveA(net, m).Running? && Placed(MoveA(net, m).net, JointMove(j, m), v, w)
    ensures (m.RecvA? && !j.ba.Empty? ==> Expects(j.a, j.ba.m)) ==> !RefusedA(net, m)
    ensures TooLate(net.a) <==> j.a.CW1?
  {
    CloseAt(net.a, j.a, v, w);
    match m {
      case CloseA => CloseStep(net, j, v, w);
      case SendA => SendStep(net, j, v, w);
      case RecvA => RecvStep(net, j, v, w);
    }
  }

  lemma {:induction false} StepA(net: Net, j: Joint, v: Value, w: Value, m: Move)
    requires InJoint(net, j, v, w) && OfA(m)
    ensures MoveA(net, m).Running? && InJoint(MoveA(net, m).net, JointMove(j, m), v, w)
    ensures Leads(j, JointMove(j, m), m.CloseA? && TooLate(net.a)) && (Orderly(j) ==> !RefusedA(net, m))
  {
    JointLeads(j, m);
    PlacedA(net, j, v, w, m);
  }

  lemma {:induction false} SwapInJoint(net: Net, j: Joint, v: Value, w: Value)
    requires InJoint(net, j, v, w)
    ensures InJoint(Swap(net), SwapJoint(j), w, v)
  {
  }

  lemma {:induction false} SwapLeads(net: Net, j: Joint, m: Move, k: Joint)
    requires !OfA(m) && Leads(SwapJoint(j), SwapJoint(k), m.CloseB? && TooLate(net.b))
    ensures Follows(net, j, m, k)
  {
  }

  lemma {:induction false} SwapOrderly(j: Joint)
    ensures Orderly(SwapJoint(j)) == Orderly(j) && SwapJoint(SwapJoint(j)) == j
  {
  }

  /** Every move keeps the net among the situations that arise; in an orderly one nothing is refused. */
  lemma {:induction false} Step(net: Net, j: Joint, v: Value, w: Value, m: Move)
    requires InJoint(net, j, v, w)
    ensures Next(net, m).Running? && InJoint(Next(net, m).net, JointNext(j, m), v, w)
    ensures Follows(net, j, m, JointNext(j, m)) && (Orderly(j) ==> !Refused(net, m))
  {
    if OfA(m) {
      StepA(net, j, v, w, m);
      LeadsFollows(net, j, m, JointNext(j, m));
    } else {
      StepB(net, j, v, w, m);
    }
  }

  lemma {:induction false} LeadsFollows(net: Net, j: Joint, m: Move, k: Joint)
    requires OfA(m) && Leads(j, k, m.CloseA? && TooLate(net.a))
    ensures Follows(net, j, m, k)
  {
  }

  lemma {:induction false} StepB(net: Net, j: Joint, v: Value, w: Value, m: Move)
    requires InJoint(net, j, v, w) && !OfA(m)
    ensures Next(net, m).Running? && InJoint(Next(net, m).net, JointNext(j, m), v, w)
    ensures Follows(net, j, m, JointNext(j, m)) && (Orderly(j) ==> !RefusedA(Swap(net), Mirror(m)))
  {
    SwapInJoint(net, j, v, w);
    SwapOrderly(j);
    StepA(Swap(net), SwapJoint(j), w, v, Mirror(m));
    SwapInJoint(MoveA(Swap(net), Mirror(m)).net, JointMove(SwapJoint(j), Mirror(m)), w, v);
    SwapLeads(net, j, m, JointNext(j, m));
  }

  // ---------------------------------------------------------------------------------------------
  // Termination and the final states

  /** An upper bound on what a side may still do: sending a segment counts twice, a Close once. */
  function Ahead(b: Block): nat {
    match b.state
    case Established => if b.pending0.fin then 6 else 7
    case FinWait1 => 4
    case FinWait2 => if b.pending0.ack then 4 else 2
    case Closing => 2
    case TimeWait => if b.pending0.ack then 2 else 0
    case CloseWait => if b.pending0.fin then 5 else 7
    case LastAck => if b.pending0.fin then 4 else if b.pending0.ack then 2 else 0
    case _ => 0
  }

  /** Every move that does anything makes this smaller. */
  function Measure(net: Net): nat {
    Ahead(net.a) + Ahead(net.b) + |net.ab| + |net.ba|
  }

  function StageAhead(s: Stage): nat {
    match s
    case E => 7
    case EC => 6
    case F1 => 4
    case F2a => 4
    case F2 => 2
    case CGa => 2
    case TWa => 2
    case CW0 => 7
    case CWF => 5
    case CW1 => 5
    case LF => 4
    case LK => 2
    case _ => 0
  }

  function Length(q: Queue): nat {
    match q
    case Empty => 0
    case One(_) => 1
    case Two(_, _) => 2
    case Three(_, _, _) => 3
  }

  function JointMeasure(j: Joint): nat {
    StageAhead(j.a) + StageAhead(j.b) + Length(j.ab) + Length(j.ba)
  }

  lemma {:induction false} AheadAgrees(b: Block, s: Stage, v: Value, w: Value)
    requires At(b, s, v, w)
    ensures Ahead(b) == StageAhead(s)
  {
    match s {
      case E =>
      case EC =>
      case F1 =>
      case F2a =>
      case F2 =>
      case CGa =>
      case TWa =>
      case TW =>
      case CW0 =>
      case CWF =>
      case CW1 =>
      case LF =>
      case LK =>
      case LA =>
      case CL =>
    }
  }

  lemma {:induction false} MeasureAgrees(net: Net, j: Joint, v: Value, w: Value)
    requires InJoint(net, j, v, w)
    ensures Measure(net) == JointMeasure(j)
  {
    AheadAgrees(net.a, j.a, v, w);
    AheadAgrees(net.b, j.b, w, v);
  }

  lemma {:induction false} SendAhead(s: Stage)
    requires PendingOf(s) != NO_FLAGS
    ensures StageAhead(Sends(s).0) + 1 < StageAhead(s)
  {
  }

  lemma {:induction false} TakesAhead(s: Stage, m: Msg)
    requires Expects(s, m) || Declines(s, m)
    ensures StageAhead(Takes(s, m)) <= StageAhead(s)
  {
  }

  lemma {:induction false} JointMoveDecreases(j: Joint, m: Move)
    requires Arises(j)
    ensures JointMove(j, m) == j || JointMeasure(JointMove(j, m)) < JointMeasure(j)
  {
    match m {
      case CloseA =>
      case SendA =>
        if PendingOf(j.a) != NO_FLAGS {
          SendArises(j);
          SendAhead(j.a);
        }
      case _ =>
        if !j.ba.Empty? {
          RecvArises(j);
          TakesAhead(j.a, j.ba.m);
        }
    }
  }

  lemma {:induction false} JointDecreases(j: Joint, m: Move)
    requires Arises(j)
    ensures JointNext(j, m) == j || JointMeasure(JointNext(j, m)) < JointMeasure(j)
  {
    if OfA(m) {
      JointMoveDecreases(j, m);
    } else {
      JointMoveDecreases(SwapJoint(j), Mirror(m));
    }
  }

  /** A move that leaves the joint situation leaves the whole net. */
  lemma {:induction false} NoEffect(net: Net, j: Joint, v: Value, w: Value, m: Move)
    requires Placed(net, j, v, w) && OfA(m) && (m.CloseA? ==> AfterClose(j.a) == j.a)
    requires (m.SendA? ==> PendingOf(j.a) == NO_FLAGS) && (m.RecvA? ==> j.ba.Empty?)
    ensures MoveA(net, m) == Running(net)
  {
    match m {
      case CloseA => CloseAt(net.a, j.a, v, w);
      case SendA => OfferAt(net.a, j.a, v, w);
      case RecvA =>
    }
  }

  lemma {:induction false} SameJoint(j: Joint, m: Move)
    requires Arises(j) && OfA(m) && JointMove(j, m) == j
    ensures m.CloseA? ==> AfterClose(j.a) == j.a
    ensures (m.SendA? ==> PendingOf(j.a) == NO_FLAGS) && (m.RecvA? ==> j.ba.Empty?)
  {
    if m.SendA? && PendingOf(j.a) != NO_FLAGS {
      SendAhead(j.a);
    }
  }

  /** Every move has no effect or makes the measure smaller. */
  lemma {:induction false} StepDecreases(net: Net, j: Joint, v: Value, w: Value, m: Move)
    requires InJoint(net, j, v, w)
    ensures Next(net, m).Running?
    ensures Next(net, m).net == net || Measure(Next(net, m).net) < Measure(net)
  {
    Step(net, j, v, w, m);
    JointDecreases(j, m);
    MeasureAgrees(net, j, v, w);
    MeasureAgrees(Next(net, m).net, JointNext(j, m), v, w);
    if JointNext(j, m) == j {
      if OfA(m) {
        SameJoint(j, m);
        NoEffect(net, j, v, w, m);
      } else {
        SwapInJoint(net, j, v, w);
        SameJoint(SwapJoint(j), Mirror(m));
        NoEffect(Swap(net), SwapJoint(j), w, v, Mirror(m));
      }
    }
  }

  /** Nothing is in flight and neither side has anything to send. */
  predicate AtRest(net: Net) {
    net.ab == [] && net.ba == [] && PendingSegment(net.a, 0).1.NoSegment? && PendingSegment(net.b, 0).1.NoSegment?
  }

  /** A side with nothing to offer is at a stage with nothing pending. */
  lemma {:induction false} RestAt(b: Block, s: Stage, v: Value, w: Value)
    requires At(b, s, v, w) && PendingSegment(b, 0).1.NoSegment?
    ensures PendingOf(s) == NO_FLAGS
  {
    if PendingOf(s) != NO_FLAGS {
      OfferAt(b, s, v, w);
    }
  }

  lemma {:induction false} RestStages(j: Joint)
    requires Arises(j) && j.ab.Empty? && j.ba.Empty? && PendingOf(j.a) == NO_FLAGS && PendingOf(j.b) == NO_FLAGS
    ensures Orderly(j) ==> j == START || ((j.a.TW? || j.a.CL?) && (j.b.TW? || j.b.CL?))
    ensures Late(j) ==> j.b.F2? && (j.a.LA? || j.a.CL?)
    ensures Late(SwapJoint(j)) ==> j.a.F2? && (j.b.LA? || j.b.CL?)
  {
  }

  /** The situations at rest: neither side has closed, or both have finished, or one closed late and its peer
      waits in FinWait2. */
  lemma {:induction false} RestMeansClosed(net: Net, j: Joint, v: Value, w: Value)
    requires InJoint(net, j, v, w) && AtRest(net)
    ensures Orderly(j) ==> j == START || (net.a.state.IsClosed() && net.b.state.IsClosed())
    ensures Late(j) ==> net.b.state.FinWait2? && (net.a.state.LastAck? || net.a.state.Closed?)
    ensures Late(SwapJoint(j)) ==> net.a.state.FinWait2? && (net.b.state.LastAck? || net.b.state.Closed?)
  {
    RestAt(net.a, j.a, v, w);
    RestAt(net.b, j.b, w, v);
    RestStages(j);
  }

  /** The run of a list of moves from net. */
  function Run(net: Net, moves: seq<Move>): Status
    decreases |moves|
  {
    if moves == [] then Running(net)
    else match Next(net, moves[0])
      case Running(net') => Run(net', moves[1..])
      case stopped => stopped
  }

  /** How many of the moves had an effect. */
  function Effective(net: Net, moves: seq<Move>): nat
    decreases |moves|
  {
    if moves == [] || !Next(net, moves[0]).Running? then 0
    else (if Next(net, moves[0]).net == net then 0 else 1) + Effective(Next(net, moves[0]).net, moves[1..])
  }

  /** How many of the moves delivered a segment that was refused. */
  function Refusals(net: Net, moves: seq<Move>): nat
    decreases |moves|
  {
    if moves == [] || !Next(net, moves[0]).Running? then 0
    else (if Refused(net, moves[0]) then 1 else 0) + Refusals(Next(net, moves[0]).net, moves[1..])
  }

  /** Some Close of the given side came too late. */
  predicate ClosesLate(net: Net, moves: seq<Move>, byA: bool)
    decreases |moves|
  {
    && moves != [] && Next(net, moves[0]).Running?
    && (LateMove(net, moves[0], byA) || ClosesLate(Next(net, moves[0]).net, moves[1..], byA))
  }

  function JointRun(j: Joint, moves: seq<Move>): Joint
    decreases |moves|
  {
    if moves == [] then j else JointRun(JointNext(j, moves[0]), moves[1..])
  }

  lemma {:induction false} RunKeeps(net: Net, j: Joint, v: Value, w: Value, moves: seq<Move>)
    requires InJoint(net, j, v, w)
    ensures Run(net, moves).Running? && InJoint(Run(net, moves).net, JointRun(j, moves), v, w)
    ensures Effective(net, moves) + Measure(Run(net, moves).net) <= Measure(net)
    decreases |moves|
  {
    if moves != [] {
      Step(net, j, v, w, moves[0]);
      StepDecreases(net, j, v, w, moves[0]);
      RunKeeps(Next(net, moves[0]).net, JointNext(j, moves[0]), v, w, moves[1..]);
    }
  }

  /** A late situation stays one. */
  lemma {:induction false} StaysLate(net: Net, j: Joint, v: Value, w: Value, moves: seq<Move>)
    requires InJoint(net, j, v, w)
    ensures Late(j) ==> Late(JointRun(j, moves))
    ensures Late(SwapJoint(j)) ==> Late(SwapJoint(JointRun(j, moves)))
    decreases |moves|
  {
    if moves != [] {
      Step(net, j, v, w, moves[0]);
      StaysLate(Next(net, moves[0]).net, JointNext(j, moves[0]), v, w, moves[1..]);
    }
  }

  /** From an orderly situation a run stays orderly and refuses nothing, until a Close comes too late. */
  lemma {:induction false} RunKind(net: Net, j: Joint, v: Value, w: Value, moves: seq<Move>)
    requires InJoint(net, j, v, w) && Orderly(j)
    ensures var k := JointRun(j, moves);
            || (&& Orderly(k) && !ClosesLate(net, moves, true) && !ClosesLate(net, moves, false)
                && Refusals(net, moves) == 0)
            || (Late(k) && ClosesLate(net, moves, true))
            || (Late(SwapJoint(k)) && ClosesLate(net, moves, false))
    decreases |moves|
  {
    if moves != [] {
      Step(net, j, v, w, moves[0]);
      var net', j' := Next(net, moves[0]).net, JointNext(j, moves[0]);
      if Orderly(j') && !LateMove(net, moves[0], true) && !LateMove(net, moves[0], false) {
        RunKind(net', j', v, w, moves[1..]);
      } else {
        StaysLate(net', j', v, w, moves[1..]);
      }
    }
  }

  const START: Joint := Joint(E, E, Empty, Empty)

  predicate Closes(m: Move) {
    m.CloseA? || m.CloseB?
  }

  /** A stage other than the first is never left for it. */
  lemma {:induction false} NoReturn(j: Joint, m: Move)
    ensures (JointNext(j, m).a.E? ==> j.a.E? && !m.CloseA?) && (JointNext(j, m).b.E? ==> j.b.E? && !m.CloseB?)
  {
  }

  lemma {:induction false} LeavesStart(j: Joint, moves: seq<Move>, i: nat)
    requires !(j.a.E? && j.b.E?) || (i < |moves| && Closes(moves[i]))
    ensures JointRun(j, moves) != START
    decreases |moves|
  {
    if moves != [] {
      NoReturn(j, moves[0]);
      LeavesStart(JointNext(j, moves[0]), moves[1..], if i == 0 then 0 else i - 1);
    }
  }

  /** Graceful close: from an established pair with nothing in flight, in every interleaving of Close calls (by both
      sides, in whatever state), sends and deliveries, nothing panics and at most 14 moves have any effect. Once a
      side has closed and everything is at rest, both sides are in TimeWait or Closed if and only if no Close came
      too late; and then no segment was refused on the way. */
  lemma {:induction false} GracefulClose(net: Net, moves: seq<Move>)
    requires InStep(net)
    ensures Run(net, moves).Running? && Effective(net, moves) <= 14
    ensures var end := Run(net, moves).net;
            (exists i :: 0 <= i < |moves| && Closes(moves[i])) && AtRest(end) ==>
              (end.a.state.IsClosed() && end.b.state.IsClosed()
               <==> !ClosesLate(net, moves, true) && !ClosesLate(net, moves, false))
    ensures !ClosesLate(net, moves, true) && !ClosesLate(net, moves, false) ==> Refusals(net, moves) == 0
  {
    var v, w := net.a.snd.nxt, net.b.snd.nxt;
    StartsOrderly(net);
    MeasureAgrees(net, START, v, w);
    RunKeeps(net, START, v, w, moves);
    RunKind(net, START, v, w, moves);
    var end := Run(net, moves).net;
    if AtRest(end) && exists i :: 0 <= i < |moves| && Closes(moves[i]) {
      var i :| 0 <= i < |moves| && Closes(moves[i]);
      LeavesStart(START, moves, i);
      RestMeansClosed(end, JointRun(START, moves), v, w);
    }
  }

  lemma {:induction false} StartsOrderly(net: Net)
    requires InStep(net)
    ensures Orderly(START) && InJoint(net, START, net.a.snd.nxt, net.b.snd.nxt)
  {
  }

  /** A late Close strands the peer: only one side can make one, and whatever happens before and after, at rest the
      other side waits in FinWait2 and the closer has sent all it will. */
  lemma {:induction false} LateCloseStrands(net: Net, moves: seq<Move>, byA: bool)
    requires InStep(net) && ClosesLate(net, moves, byA)
    ensures Run(net, moves).Running? && !ClosesLate(net, moves, !byA)
    ensures var end := Run(net, moves).net;
            var (closer, peer) := if byA then (end.a, end.b) else (end.b, end.a);
            AtRest(end) ==> peer.state.FinWait2? && (closer.state.LastAck? || closer.state.Closed?)
  {
    var v, w := net.a.snd.nxt, net.b.snd.nxt;
    StartsOrderly(net);
    RunKeeps(net, START, v, w, moves);
    OneLate(net, START, v, w, moves, byA);
    var end := Run(net, moves).net;
    if AtRest(end) {
      RestMeansClosed(end, JointRun(START, moves), v, w);
    }
  }

  lemma {:induction false} LateNotTooLate(net: Net, j: Joint, v: Value, w: Value)
    requires Placed(net, j, v, w) && (Late(j) || Late(SwapJoint(j)))
    ensures !TooLate(net.a) && !TooLate(net.b)
  {
    CloseAt(net.a, j.a, v, w);
    CloseAt(net.b, j.b, w, v);
  }

  /** Side A closes; its FIN arrives, the ACK goes out, and side B closes. */
  const LATE: seq<Move> := [CloseA, SendA, RecvB, SendB, CloseB]

  lemma {:induction false} ClosesLateNext(net: Net, moves: seq<Move>, byA: bool)
    requires moves != [] && Next(net, moves[0]).Running?
    requires LateMove(net, moves[0], byA) || ClosesLate(Next(net, moves[0]).net, moves[1..], byA)
    ensures ClosesLate(net, moves, byA)
  {
  }

  lemma {:induction false} Goes(net: Net, j: Joint, v: Value, w: Value, m: Move, k: Joint) returns (net': Net)
    requires InJoint(net, j, v, w) && JointNext(j, m) == k
    ensures Next(net, m) == Running(net') && InJoint(net', k, v, w)
  {
    Step(net, j, v, w, m);
    net' := Next(net, m).net;
  }

  lemma {:induction false} LateJoints()
    ensures JointNext(START, CloseA) == Joint(EC, E, Empty, Empty)
    ensures JointNext(Joint(EC, E, Empty, Empty), SendA) == Joint(F1, E, One(Fin00), Empty)
    ensures JointNext(Joint(F1, E, One(Fin00), Empty), RecvB) == Joint(F1, CW0, Empty, Empty)
    ensures JointNext(Joint(F1, CW0, Empty, Empty), SendB) == Joint(F1, CW1, Empty, One(Ack01))
  {
  }

  lemma {:induction false} FinReaches(net: Net, v: Value, w: Value) returns (n1: Net, n2: Net, n3: Net)
    requires InJoint(net, START, v, w)
    ensures Next(net, CloseA) == Running(n1) && Next(n1, SendA) == Running(n2) && Next(n2, RecvB) == Running(n3)
    ensures InJoint(n3, Joint(F1, CW0, Empty, Empty), v, w)
  {
    LateJoints();
    n1 := Goes(net, START, v, w, CloseA, Joint(EC, E, Empty, Empty));
    n2 := Goes(n1, Joint(EC, E, Empty, Empty), v, w, SendA, Joint(F1, E, One(Fin00), Empty));
    n3 := Goes(n2, Joint(F1, E, One(Fin00), Empty), v, w, RecvB, Joint(F1, CW0, Empty, Empty));
  }

  lemma {:induction false} AckLeaves(net: Net, v: Value, w: Value) returns (n1: Net)
    requires InJoint(net, Joint(F1, CW0, Empty, Empty), v, w)
    ensures Next(net, SendB) == Running(n1) && TooLate(n1.b) && Next(n1, CloseB).Running?
  {
    LateJoints();
    var k := Joint(F1, CW1, Empty, One(Ack01));
    n1 := Goes(net, Joint(F1, CW0, Empty, Empty), v, w, SendB, k);
    CloseAt(n1.b, CW1, w, v);
    var n2 := Goes(n1, k, v, w, CloseB, JointNext(k, CloseB));
  }

  /** From every established pair in step a Close can come too late. */
  lemma {:induction false} CloseMayBeLate(net: Net)
    requires InStep(net)
    ensures ClosesLate(net, LATE, false)
  {
    var v, w := net.a.snd.nxt, net.b.snd.nxt;
    StartsOrderly(net);
    var n1, n2, n3 := FinReaches(net, v, w);
    var n4 := AckLeaves(n3, v, w);
    FiveMoves(net, n1, n2, n3, n4);
  }

  lemma {:induction false} FiveMoves(net: Net, n1: Net, n2: Net, n3: Net, n4: Net)
    requires Next(net, CloseA) == Running(n1) && Next(n1, SendA) == Running(n2) && Next(n2, RecvB) == Running(n3)
    requires Next(n3, SendB) == Running(n4) && Next(n4, CloseB).Running? && TooLate(n4.b)
    ensures ClosesLate(net, LATE, false)
  {
    var l3, l2, l1 := [SendB, CloseB], [RecvB, SendB, CloseB], [SendA, RecvB, SendB, CloseB];
    assert l3[1..] == [CloseB] && l2[1..] == l3 && l1[1..] == l2 && LATE[1..] == l1;
    ClosesLateNext(n4, [CloseB], false);
    ClosesLateNext(n3, l3, false);
    ClosesLateNext(n2, l2, false);
    ClosesLateNext(n1, l1, false);
    ClosesLateNext(net, LATE, false);
  }

  /** A side in a late situation makes no late Close, and neither does its peer. */
  lemma {:induction false} NoMoreLate(net: Net, j: Joint, v: Value, w: Value, moves: seq<Move>, byA: bool)
    requires InJoint(net, j, v, w) && (Late(j) || Late(SwapJoint(j)))
    ensures !ClosesLate(net, moves, byA)
    decreases |moves|
  {
    if moves != [] {
      Step(net, j, v, w, moves[0]);
      LateNotTooLate(net, j, v, w);
      NoMoreLate(Next(net, moves[0]).net, JointNext(j, moves[0]), v, w, moves[1..], byA);
    }
  }

  lemma {:induction false} OneLate(net: Net, j: Joint, v: Value, w: Value, moves: seq<Move>, byA: bool)
    requires InJoint(net, j, v, w) && Orderly(j) && ClosesLate(net, moves, byA)
    ensures !ClosesLate(net, moves, !byA)
    ensures Late(if byA then JointRun(j, moves) else SwapJoint(JointRun(j, moves)))
    decreases |moves|
  {
    Step(net, j, v, w, moves[0]);
    var net', j' := Next(net, moves[0]).net, JointNext(j, moves[0]);
    if LateMove(net, moves[0], true) || LateMove(net, moves[0], false) {
      NoMoreLate(net', j', v, w, moves[1..], byA);
      NoMoreLate(net', j', v, w, moves[1..], !byA);
      StaysLate(net', j', v, w, moves[1..]);
    } else {
      OneLate(net', j', v, w, moves[1..], byA);
    }
  }

  // ---------------------------------------------------------------------------------------------
  // A late Close, for any two blocks

  /** The block x refuses seg and keeps waiting. */
  predicate Refuses(x: Block, seg: Segment) {
    Recv(x, seg).err != NoError && Recv(x, seg).block == x
  }

  lemma {:induction false} LateFin(b: Block, n: nat)
    requires b.state.CloseWait? && !b.challengeAck && b.rcv.wnd <= MAX_WINDOW
    ensures var e := EmitPending(Close(b).block, n);
            && e.Sent? && e.seg.flags == FIN && e.block.state.LastAck? && !e.block.challengeAck
            && e.block.pending0 == ACK && e.block.pending1 == NO_FLAGS && e.block.rcv.wnd <= MAX_WINDOW
  {
    var c := Close(b).block;
    var seg := Segment(c.snd.nxt, 0, 0, c.rcv.wnd, FIN);
    assert PendingSegment(c, n) == (c, Offered(seg));
    assert CheckOutgoing(c, seg) == NoError;
  }

  lemma {:induction false} LateAck(b: Block, n: nat)
    requires b.state.LastAck? && !b.challengeAck && b.rcv.wnd <= MAX_WINDOW
    requires b.pending0 == ACK && b.pending1 == NO_FLAGS
    ensures var e := EmitPending(b, n);
            && e.Sent? && e.seg.flags == ACK && !e.block.challengeAck && e.block.pending0 == NO_FLAGS
            && e.block.state.LastAck?
  {
    var seg := Segment(b.snd.nxt, b.rcv.nxt, 0, b.rcv.wnd, ACK);
    assert PendingSegment(b, n) == (b, Offered(seg));
    assert CheckOutgoing(b, seg) == NoError;
  }

  /** Whatever the windows and sequence numbers of either side: a user that closes in CloseWait sends a FIN without
      ACK, then an ACK without FIN, both of which every peer in FinWait2 refuses, and then nothing more. */
  lemma {:induction false} CloseInCloseWaitStrands(b: Block, x: Block, n: nat, m: nat, k: nat)
    requires b.state.CloseWait? && !b.challengeAck && b.rcv.wnd <= MAX_WINDOW && x.state.FinWait2?
    ensures var first := EmitPending(Close(b).block, n);
            && first.Sent? && Refuses(x, first.seg)
            && var second := EmitPending(first.block, m);
            && second.Sent? && Refuses(x, second.seg)
            && EmitPending(second.block, k).Idle?
  {
    LateFin(b, n);
    var first := EmitPending(Close(b).block, n);
    LateAck(first.block, m);
    TakesOnlyFinAck(x, first.seg);
    TakesOnlyFinAck(x, EmitPending(first.block, m).seg);
  }
}
