/** Acknowledgments over a network that drops, duplicates and reorders: when SND.UNA can go back. */
module Acks {
  import opened SeqNum
  import opened Segments
  import opened Control
  import opened Rings
  import opened Hostile
  import Draining

  // ---------------------------------------------------------------------------------------------
  // One block

  /** What a settled block does with a segment that passes the window checks. */
  predicate Takes(b: Block, seg: Segment) {
    match b.state
    case Established =>
      seg.flags.ack ==> && LessThanEq(seg.ackno, b.snd.nxt)
                        && (LessThan(b.snd.una, seg.ackno) || seg.dataLen > 0 || seg.flags.fin)
    case FinWait1 => seg.flags.fin || seg.flags.ack
    case FinWait2 => seg.flags.fin && seg.flags.ack
    case _ => true
  }

  lemma {:induction false} ScreenTakes(b: Block, seg: Segment)
    requires Settled(b) && b.state.Established? && NoSynRst(seg.flags)
    ensures ScreenAck(b, seg).err == NoError <==> Takes(b, seg)
  {
  }

  lemma {:induction false} HandleTakes(b: Block, seg: Segment)
    requires Settled(b) && !b.state.IsClosed() && NoSynRst(seg.flags)
    ensures Handle(b, seg).err == NoError <==> b.state.Established? || Takes(b, seg)
  {
    match b.state {
      case Established =>
      case FinWait1 =>
      case FinWait2 =>
      case Closing =>
      case CloseWait =>
      case LastAck =>
    }
  }

  /** A settled block accepts exactly the segments it takes at its next number, and then its SND.UNA is what they
      acknowledge: only Established screens acknowledgments. */
  lemma {:induction false} RecvUna(b: Block, seg: Segment)
    requires Settled(b) && !b.state.IsClosed() && NoSynRst(seg.flags)
    ensures var r := Recv(b, seg);
            && (r.err == NoError <==> CheckIncoming(b, seg) == NoError && Takes(b, seg))
            && (r.block.state.Closed? ||
                r.block.snd.una == if r.err == NoError && seg.flags.ack then seg.ackno else b.snd.una)
  {
    ValidateInSequence(b, seg);
    HandleInSequence(b, seg);
    HandleTakes(b, seg);
    if b.state.Established? {
      ScreenTakes(b, seg);
    }
  }

  /** Exactly when an established block accepts a segment and moves SND.UNA back: an old acknowledgment comes with
      data or a FIN, or it is half the number space old and so passes for a new one. */
  lemma {:induction false} EstablishedGoesBackIff(b: Block, seg: Segment)
    requires Settled(b) && b.state.Established? && NoSynRst(seg.flags)
    ensures var r := Recv(b, seg);
            r.err == NoError && LessThan(r.block.snd.una, b.snd.una) <==>
              && CheckIncoming(b, seg) == NoError && seg.flags.ack
              && LessThan(seg.ackno, b.snd.una) && LessThanEq(seg.ackno, b.snd.nxt)
              && (seg.dataLen > 0 || seg.flags.fin || Sizeof(seg.ackno, b.snd.una) == HALF)
  {
    RecvUna(b, seg);
    LessThanBothWaysExactlyAtHalf(seg.ackno, b.snd.una);
    Draining.RecvMoves(b, seg);
  }

  /** FinWait1 goes to FinWait2 on exactly the segments at its next number that have ACK and no FIN, whatever they
      acknowledge, and then takes that for SND.UNA. */
  lemma {:induction false} FinWait1GoesOnIff(b: Block, seg: Segment)
    requires Settled(b) && b.state.FinWait1? && NoSynRst(seg.flags)
    ensures var r := Recv(b, seg);
            && (r.block.state.FinWait2? <==> CheckIncoming(b, seg) == NoError && seg.flags.ack && !seg.flags.fin)
            && (r.block.state.FinWait2? ==> r.err == NoError && r.block.snd.una == seg.ackno)
  {
    RecvUna(b, seg);
  }

  // ---------------------------------------------------------------------------------------------
  // Every run

  /** How many of the octets a side sent it takes to be acknowledged. */
  function Acked(p: Peer): int {
    |p.sent| - p.block.snd.InFlight()
  }

  /** Packets in the order they were sent. */
  predicate Ordered(q: seq<Pkt>) {
    forall i, j :: 0 <= i < j < |q| ==> q[i].from + |q[i].octets| <= q[j].from && q[i].acked <= q[j].acked
  }

  /** What y has sent acknowledges what y had accepted of x's stream, which counts from base. */
  predicate Acknowledges(y: Peer, q: seq<Pkt>, base: int) {
    && Ordered(q)
    && forall i :: 0 <= i < |q| ==>
         && q[i].acked <= |y.got| && q[i].from + |q[i].octets| <= |y.sent| && q[i].seg.wnd <= MAX_WINDOW
         && (q[i].seg.flags.ack ==> q[i].seg.ackno == Wrap(base + q[i].acked))
  }

  /** Side x has position u of its stream acknowledged; whatever is still to be accepted acknowledges no less. */
  predicate Standing(x: Peer, y: Peer, q: seq<Pkt>, base: int, u: int) {
    && x.block.snd.una == Wrap(base + u) && u <= |y.got|
    && forall i :: 0 <= i < |q| && q[i].octets != [] && |x.got| <= q[i].from ==> u <= q[i].acked
  }

  ghost predicate AckInv(w: World, baseA: int, baseB: int, u: int) {
    && Inv(w, baseA, baseB) && Acknowledges(w.b, w.fromB, baseA)
    && (w.a.block.state.Established? ==> Standing(w.a, w.b, w.fromB, baseA, u))
  }

  lemma {:induction false} AcknowledgesAppend(y: Peer, q: seq<Pkt>, base: int, p: Pkt, y': Peer)
    requires Acknowledges(y, q, base) && y'.got == y.got && |y'.sent| == |y.sent| + |p.octets|
    requires p.from == |y.sent| && p.acked == |y.got| && p.seg.wnd <= MAX_WINDOW
    requires p.seg.flags.ack ==> p.seg.ackno == Wrap(base + |y.got|)
    ensures Acknowledges(y', q + [p], base)
  {
  }

  lemma {:induction false} StandingAppend(x: Peer, y: Peer, q: seq<Pkt>, base: int, u: int, p: Pkt, y': Peer)
    requires Standing(x, y, q, base, u) && y'.got == y.got && p.acked == |y.got|
    ensures Standing(x, y', q + [p], base, u)
  {
  }

  // What happens at the side that acknowledges.

  lemma {:induction false} PeerEmits(w: World, baseA: int, baseB: int, u: int, payload: seq<byte>, em: Emission)
    requires AckInv(w, baseA, baseB, u) && InSequence(w.b.block, |payload|, em)
    requires Inv(Swap(AfterEmit(Swap(w), payload, em)), baseA, baseB)
    ensures AckInv(Swap(AfterEmit(Swap(w), payload, em)), baseA, baseB, u)
  {
    if em.Sent? {
      var octets := Octets(payload[..em.seg.dataLen], em.seg.flags.fin);
      var p := Pkt(em.seg, octets, |w.b.sent|, |w.b.got|);
      var y' := w.b.(block := em.block, sent := w.b.sent + octets);
      AcknowledgesAppend(w.b, w.fromB, baseA, p, y');
      if w.a.block.state.Established? {
        StandingAppend(w.a, w.b, w.fromB, baseA, u, p, y');
      }
    }
  }

  lemma {:induction false} PeerTakes(w: World, baseA: int, baseB: int, u: int, p: Pkt, r: Result)
    requires AckInv(w, baseA, baseB, u) && Inv(Swap(AfterArrival(Swap(w), p, r)), baseA, baseB)
    ensures AckInv(Swap(AfterArrival(Swap(w), p, r)), baseA, baseB, u)
  {
  }

  // What happens at the side that is acknowledged.

  lemma {:induction false} OwnEmits(w: World, baseA: int, baseB: int, u: int, payload: seq<byte>, em: Emission)
    requires AckInv(w, baseA, baseB, u) && InSequence(w.a.block, |payload|, em)
    requires em.Sent? && em.block.state.Established? ==> w.a.block.state.Established?
    requires Inv(AfterEmit(w, payload, em), baseA, baseB)
    ensures AckInv(AfterEmit(w, payload, em), baseA, baseB, u)
  {
  }

  /** A packet that was accepted acknowledges no more than those still to be accepted. */
  lemma {:induction false} StandingAfter(x: Peer, y: Peer, q: seq<Pkt>, base: int, i: nat, x': Peer)
    requires Acknowledges(y, q, base) && i < |q| && q[i].seg.flags.ack
    requires q[i].from == |x.got| && x'.got == x.got + q[i].octets && x'.block.snd.una == q[i].seg.ackno
    ensures Standing(x', y, q, base, q[i].acked)
  {
    forall k | 0 <= k < |q| && q[k].octets != [] && |x'.got| <= q[k].from
      ensures q[i].acked <= q[k].acked
    {
    }
  }

  /** Where an acknowledgment of an established block's octets leaves it: not behind, or all the way from the end of
      its stream to half the number space before it. */
  lemma {:induction false} PureAckPosition(b: Block, seg: Segment, base: int, u: int, ack: int, sent: int)
    requires b.state.Established? && Takes(b, seg) && seg.flags.ack && seg.dataLen == 0 && !seg.flags.fin
    requires b.snd.una == Wrap(base + u) && seg.ackno == Wrap(base + ack) && b.snd.nxt == Wrap(base + sent)
    requires 0 <= ack <= sent < MODULUS && u <= sent
    ensures u <= ack || (u == sent && ack == sent - HALF)
  {
    if ack < u {
      SubIsDistance(base + u, base + ack);
      WrapOfValue(u - ack);
      SubIsDistance(base + ack, base + sent);
      WrapOfValue(sent - ack);
      if ack < sent {
        assert Wrap(ack - sent) == MODULUS - (sent - ack);
      }
    }
  }

  lemma {:induction false} TakenAt(w: World, baseA: int, baseB: int, i: nat)
    requires Inv(w, baseA, baseB) && !w.a.block.state.Closed? && i < |w.fromB|
    ensures w.fromB[i].seg.seqno == w.a.block.rcv.nxt <==> w.fromB[i].from == |w.a.got|
    ensures |w.fromB[i].octets| == w.fromB[i].seg.Len() && NoSynRst(w.fromB[i].seg.flags)
    ensures w.fromB[i].octets == [] <==> w.fromB[i].seg.dataLen == 0 && !w.fromB[i].seg.flags.fin
  {
    var p := w.fromB[i];
    assert Piece(p, w.b.sent, baseB);
    WrapInjective(baseB + p.from, baseB + |w.a.got|);
  }

  /** A step back of an established side: from the end of its stream to half the number space before it. */
  predicate HalfBack(w: World, u: int, u': int) {
    u == |w.a.sent| && u' == |w.a.sent| - HALF
  }

  lemma {:induction false} Arrival(w: World, baseA: int, baseB: int, u: int, i: nat, r: Result) returns (u': int)
    requires AckInv(w, baseA, baseB, u) && w.a.block.state.Established? && i < |w.fromB|
    requires Inv(AfterArrival(w, w.fromB[i], r), baseA, baseB) && r.block.state.Established?
    requires r.err == NoError ==> w.fromB[i].seg.seqno == w.a.block.rcv.nxt && Takes(w.a.block, w.fromB[i].seg)
    requires r.block.snd.una == if r.err == NoError && w.fromB[i].seg.flags.ack then w.fromB[i].seg.ackno
                                else w.a.block.snd.una
    ensures AckInv(AfterArrival(w, w.fromB[i], r), baseA, baseB, u')
    ensures u' == if r.err == NoError && w.fromB[i].seg.flags.ack then w.fromB[i].acked else u
    ensures u <= u' || (HalfBack(w, u, u') && w.fromB[i].octets == [])
  {
    var b, p := w.a.block, w.fromB[i];
    TakenAt(w, baseA, baseB, i);
    u' := u;
    if r.err == NoError && p.seg.flags.ack {
      u' := p.acked;
      StandingAfter(w.a, w.b, w.fromB, baseA, i, AfterArrival(w, p, r).a);
      if p.octets == [] {
        PureAckPosition(b, p.seg, baseA, u, p.acked, |w.a.sent|);
      }
    }
  }

  /** Nothing the network delivers takes an established side's acknowledged position back, except a packet exactly
      half the number space old when everything is acknowledged. */
  lemma {:induction false} ArriveStep(w: World, baseA: int, baseB: int, u: int, i: nat) returns (u': int)
    requires AckInv(w, baseA, baseB, u)
    ensures var w' := NextA(w, Arrive(SideA, i));
            && AckInv(w', baseA, baseB, u')
            && (w'.a.block.state.Established? ==> w.a.block.state.Established? && (u <= u' || HalfBack(w, u, u')))
    ensures u' >= 0 || u' == u
  {
    u' := u;
    ArriveKeeps(w, baseA, baseB, Arrive(SideA, i));
    if i < |w.fromB| && !w.a.block.state.IsClosed() {
      var b, p := w.a.block, w.fromB[i];
      TakenAt(w, baseA, baseB, i);
      var r := Recv(b, p.seg);
      Draining.RecvMoves(b, p.seg);
      if r.block.state.Established? {
        RecvInSequence(b, p.seg);
        RecvUna(b, p.seg);
        u' := Arrival(w, baseA, baseB, u, i, r);
      }
    }
  }

  lemma {:induction false} EmitStep(w: World, baseA: int, baseB: int, u: int, payload: seq<byte>)
    requires AckInv(w, baseA, baseB, u) && |w.a.sent| + |payload| + 1 < MODULUS
    ensures var w' := NextA(w, Emit(SideA, payload));
            AckInv(w', baseA, baseB, u) && (w'.a.block.state.Established? ==> w.a.block.state.Established?)
  {
    var em := EmitPending(w.a.block, |payload|);
    EmitInSequence(w.a.block, |payload|);
    EmitKeeps(w, baseA, baseB, Emit(SideA, payload));
    if !w.a.block.state.Established? {
      Draining.OthersSend(w.a.block, |payload|);
    }
    OwnEmits(w, baseA, baseB, u, payload, em);
  }

  lemma {:induction false} PeerEmitStep(w: World, baseA: int, baseB: int, u: int, payload: seq<byte>)
    requires AckInv(w, baseA, baseB, u) && |w.b.sent| + |payload| + 1 < MODULUS
    ensures AckInv(Swap(NextA(Swap(w), Emit(SideB, payload))), baseA, baseB, u)
  {
    NextKeeps(w, baseA, baseB, Emit(SideB, payload));
    EmitInSequence(w.b.block, |payload|);
    PeerEmits(w, baseA, baseB, u, payload, EmitPending(w.b.block, |payload|));
  }

  lemma {:induction false} PeerArriveStep(w: World, baseA: int, baseB: int, u: int, i: nat)
    requires AckInv(w, baseA, baseB, u)
    ensures AckInv(Swap(NextA(Swap(w), Arrive(SideB, i))), baseA, baseB, u)
  {
    NextKeeps(w, baseA, baseB, Arrive(SideB, i));
    if i < |w.fromA| && !w.b.block.state.IsClosed() {
      PeerTakes(w, baseA, baseB, u, w.fromA[i], Recv(w.b.block, w.fromA[i].seg));
    }
  }

  lemma {:induction false} PeerStep(w: World, baseA: int, baseB: int, u: int, e: Event)
    requires AckInv(w, baseA, baseB, u) && e.side.SideB? && Allowed(w, e)
    ensures AckInv(Next(w, e), baseA, baseB, u)
  {
    match e {
      case Emit(_, payload) => PeerEmitStep(w, baseA, baseB, u, payload);
      case Arrive(_, i) => PeerArriveStep(w, baseA, baseB, u, i);
      case UserClose(_) => NextKeeps(w, baseA, baseB, e);
      case SetWindow(_, _) => NextKeeps(w, baseA, baseB, e);
    }
  }

  lemma {:induction false} PeerLeaves(w: World, e: Event)
    requires e.side.SideB?
    ensures Next(w, e).a == w.a
  {
  }

  /** Over every event the invariant is kept, and while established the position goes back by half the number space
      or not at all. */
  lemma {:induction false} Step(w: World, baseA: int, baseB: int, u: int, e: Event) returns (u': int)
    requires AckInv(w, baseA, baseB, u) && Allowed(w, e)
    ensures var w' := Next(w, e);
            && AckInv(w', baseA, baseB, u') && |w.a.sent| <= |w'.a.sent|
            && (w'.a.block.state.Established? ==> w.a.block.state.Established? && (u <= u' || HalfBack(w, u, u')))
    ensures u' >= 0 || u' == u
  {
    u' := u;
    if e.side.SideB? {
      PeerStep(w, baseA, baseB, u, e);
      PeerLeaves(w, e);
    } else {
      match e {
        case Emit(_, payload) => EmitStep(w, baseA, baseB, u, payload);
        case Arrive(_, i) => u' := ArriveStep(w, baseA, baseB, u, i);
        case UserClose(_) => NextKeeps(w, baseA, baseB, e);
        case SetWindow(_, _) => NextKeeps(w, baseA, baseB, e);
      }
    }
  }

  lemma {:induction false} RunKeeps(w: World, baseA: int, baseB: int, u: int, events: seq<Event>, w': World)
    returns (u': int)
    requires AckInv(w, baseA, baseB, u) && Runs(w, events, w')
    ensures AckInv(w', baseA, baseB, u') && |w.a.sent| <= |w'.a.sent|
    ensures w'.a.block.state.Established? ==>
              w.a.block.state.Established? && (u <= u' || |w'.a.sent| >= HALF)
    ensures u' >= 0 || u' >= u
    decreases |events|
  {
    u' := u;
    if events != [] {
      var v := Step(w, baseA, baseB, u, events[0]);
      u' := RunKeeps(Next(w, events[0]), baseA, baseB, v, events[1..], w');
    }
  }

  lemma {:induction false} Begins(w: World)
    requires Start(w)
    ensures AckInv(w, w.a.block.snd.nxt, w.b.block.snd.nxt, 0 - w.a.block.snd.InFlight())
  {
    var una, nxt := w.a.block.snd.una, w.a.block.snd.nxt;
    assert Wrap(nxt - Sizeof(una, nxt)) == una;
    WrapOfValue(nxt);
    WrapOfValue(w.b.block.snd.nxt);
  }

  lemma {:induction false} Reaches(w0: World, events: seq<Event>, w: World) returns (u: int)
    requires Start(w0) && Runs(w0, events, w)
    ensures AckInv(w, w0.a.block.snd.nxt, w0.b.block.snd.nxt, u) && 0 <= u + w0.a.block.snd.InFlight()
  {
    Begins(w0);
    var f: int := w0.a.block.snd.InFlight();
    u := RunKeeps(w0, w0.a.block.snd.nxt, w0.b.block.snd.nxt, 0 - f, events, w);
  }

  /** While the number space is not used up, the program's numbers tell the position. */
  lemma {:induction false} Position(w: World, baseA: int, baseB: int, u: int, f: Size)
    requires AckInv(w, baseA, baseB, u) && w.a.block.state.Established? && 0 <= u + f && f + |w.a.sent| < MODULUS
    ensures Acked(w.a) == u && u <= |w.b.got|
  {
    SizeofIsDistance(baseA + u, baseA + |w.a.sent|);
  }

  predicate InOrder(p: Peer) {
    LessThanEq(p.block.snd.una, p.block.snd.nxt)
  }

  lemma {:induction false} SideNeverGoesBack(w0: World, before: seq<Event>, w: World, after: seq<Event>, w': World)
    requires Start(w0) && Runs(w0, before, w) && Runs(w, after, w')
    requires InOrder(w0.a)
    requires w'.a.block.state.Established? && |w'.a.sent| < HALF
    ensures Acked(w.a) <= Acked(w'.a) <= |w'.b.got|
  {
    var baseA, baseB, f := w0.a.block.snd.nxt, w0.b.block.snd.nxt, w0.a.block.snd.InFlight();
    var u := Reaches(w0, before, w);
    var u' := RunKeeps(w, baseA, baseB, u, after, w');
    Position(w, baseA, baseB, u, f);
    Position(w', baseA, baseB, u', f);
  }

  function MirrorAll(events: seq<Event>): seq<Event> {
    seq(|events|, i requires 0 <= i < |events| => Mirror(events[i]))
  }

  lemma {:induction false} MirrorRuns(w: World, events: seq<Event>, w': World)
    requires Runs(w, events, w')
    ensures Runs(Swap(w), MirrorAll(events), Swap(w'))
    decreases |events|
  {
    if events != [] {
      MirrorNext(w, events[0]);
      assert MirrorAll(events)[1..] == MirrorAll(events[1..]);
      MirrorRuns(Next(w, events[0]), events[1..], w');
    }
  }

  /** Whatever the network drops, duplicates and reorders: from any two established sides in sequence with
      SND.UNA <= SND.NXT, while a side is established and has sent fewer than 2^31 octets, what it takes to be
      acknowledged never goes back from one point of a run to a later one, and is never more than its peer has
      accepted. */
  lemma {:induction false} UnaNeverGoesBack(w0: World, before: seq<Event>, w: World, after: seq<Event>, w': World)
    requires Start(w0) && Runs(w0, before, w) && Runs(w, after, w')
    ensures InOrder(w0.a) && w'.a.block.state.Established? && |w'.a.sent| < HALF ==>
              Acked(w.a) <= Acked(w'.a) <= |w'.b.got|
    ensures InOrder(w0.b) && w'.b.block.state.Established? && |w'.b.sent| < HALF ==>
              Acked(w.b) <= Acked(w'.b) <= |w'.a.got|
  {
    if InOrder(w0.a) && w'.a.block.state.Established? && |w'.a.sent| < HALF {
      SideNeverGoesBack(w0, before, w, after, w');
    }
    if InOrder(w0.b) && w'.b.block.state.Established? && |w'.b.sent| < HALF {
      MirrorRuns(w0, before, w);
      MirrorRuns(w, after, w');
      SideNeverGoesBack(Swap(w0), MirrorAll(before), Swap(w), MirrorAll(after), Swap(w'));
    }
  }

  /** The packet passes for a new acknowledgment of everything, being exactly half the number space old. */
  predicate HalfOld(b: Block, seg: Segment) {
    && seg.seqno == b.rcv.nxt && seg.dataLen == 0 && seg.flags.ack && !seg.flags.fin
    && b.snd.una == b.snd.nxt && Sizeof(seg.ackno, b.snd.una) == HALF
  }

  lemma {:induction false} HalfOldTaken(b: Block, seg: Segment)
    requires Settled(b) && b.state.Established? && HalfOld(b, seg) && seg.wnd <= MAX_WINDOW && NoSynRst(seg.flags)
    ensures CheckIncoming(b, seg) == NoError && Takes(b, seg)
  {
    LessThanBothWaysExactlyAtHalf(seg.ackno, b.snd.una);
  }

  /** From position u to u' a step goes back exactly on a packet that is half old. */
  lemma {:induction false} BackIff(w: World, baseA: int, baseB: int, u: int, u': int, i: nat, taken: bool)
    requires AckInv(w, baseA, baseB, u) && w.a.block.state.Established? && i < |w.fromB|
    requires taken ==> w.fromB[i].seg.seqno == w.a.block.rcv.nxt
    requires HalfOld(w.a.block, w.fromB[i].seg) ==> taken
    requires u' == if taken && w.fromB[i].seg.flags.ack then w.fromB[i].acked else u
    requires u <= u' || (HalfBack(w, u, u') && w.fromB[i].octets == [])
    requires |w.a.sent| - u < MODULUS
    ensures u' < u <==> HalfOld(w.a.block, w.fromB[i].seg)
  {
    var b, p := w.a.block, w.fromB[i];
    TakenAt(w, baseA, baseB, i);
    SizeofIsDistance(baseA + u, baseA + |w.a.sent|);
    if u' < u {
      SizeofIsDistance(baseA + u', baseA + u);
    } else if HalfOld(b, p.seg) {
      SizeofIsDistance(baseA + u, baseA + p.acked);
      assert false;
    }
  }

  /** Beyond 2^31 octets, in every world a run reaches while the number space is not used up: exactly which packets
      take an established side back that stays established. */
  lemma {:induction false} GoesBackExactlyAtHalf(w0: World, events: seq<Event>, w: World, i: nat)
    requires Start(w0) && Runs(w0, events, w) && i < |w.fromB|
    requires w0.a.block.snd.InFlight() + |w.a.sent| < MODULUS
    requires w.a.block.state.Established? && NextA(w, Arrive(SideA, i)).a.block.state.Established?
    ensures Acked(NextA(w, Arrive(SideA, i)).a) < Acked(w.a) <==> HalfOld(w.a.block, w.fromB[i].seg)
  {
    var baseA, baseB, f := w0.a.block.snd.nxt, w0.b.block.snd.nxt, w0.a.block.snd.InFlight();
    var u := Reaches(w0, events, w);
    Position(w, baseA, baseB, u, f);
    var u' := BackStep(w, baseA, baseB, u, i);
    Position(NextA(w, Arrive(SideA, i)), baseA, baseB, u', f);
  }

  lemma {:induction false} BackStep(w: World, baseA: int, baseB: int, u: int, i: nat) returns (u': int)
    requires AckInv(w, baseA, baseB, u) && i < |w.fromB| && |w.a.sent| - u < MODULUS
    requires w.a.block.state.Established? && NextA(w, Arrive(SideA, i)).a.block.state.Established?
    ensures AckInv(NextA(w, Arrive(SideA, i)), baseA, baseB, u') && (u' >= 0 || u' == u)
    ensures u' < u <==> HalfOld(w.a.block, w.fromB[i].seg)
  {
    var b, p := w.a.block, w.fromB[i];
    var r := Recv(b, p.seg);
    TakenAt(w, baseA, baseB, i);
    RecvInSequence(b, p.seg);
    RecvUna(b, p.seg);
    ArriveKeeps(w, baseA, baseB, Arrive(SideA, i));
    u' := Arrival(w, baseA, baseB, u, i, r);
    if HalfOld(b, p.seg) {
      HalfOldTaken(b, p.seg);
    }
    BackIff(w, baseA, baseB, u, u', i, r.err == NoError);
  }

  // ---------------------------------------------------------------------------------------------
  // A run in which a closing side goes back

  function SideBlock(una: Value, nxt: Value, rcvNxt: Value, pending: Flags, state: State): Block {
    Block(SendSpace(0, una, nxt, 1000), RecvSpace(0, rcvNxt, 1000), 0, pending, NO_FLAGS, state, false)
  }

  const FRESH: World := World(Peer(SideBlock(10, 10, 20, NO_FLAGS, Established), [], []),
                              Peer(SideBlock(20, 20, 10, NO_FLAGS, Established), [], []), [], [])

  /** Side A sends two bytes, B acknowledges each, the second acknowledgment arrives, A closes and sends its FIN, and
      then the first acknowledgment arrives. */
  const SENDING: seq<Event> := [Emit(SideA, [1]), Emit(SideA, [2])]
  const FIRST: seq<Event> := SENDING + [Arrive(SideB, 0), Emit(SideB, [])]
  const SECOND: seq<Event> := FIRST + [Arrive(SideB, 1), Emit(SideB, [])]
  const DELAYED: seq<Event> := SECOND + [Arrive(SideA, 1), UserClose(SideA), Emit(SideA, [])]

  function Byte(n: Value, b: byte): Pkt
    requires n >= 10
  {
    Pkt(Segment(n, 20, 1, 1000, ACK), [Data(b)], n - 10, 0)
  }

  function PureAck(n: Value): Pkt
    requires n >= 10
  {
    Pkt(Segment(20, n, 0, 1000, ACK), [], 0, n - 10)
  }

  /** Side A with the given numbers and state, having sent s. */
  function SideA1(una: Value, nxt: Value, pending: Flags, state: State, s: seq<Octet>): Peer {
    Peer(SideBlock(una, nxt, 20, pending, state), s, [])
  }

  /** Side B having accepted s. */
  function SideB1(pending: Flags, s: seq<Octet>): Peer {
    Peer(SideBlock(20, 20, (10 + |s|) % MODULUS, pending, Established), [], s)
  }

  lemma {:induction false} ByteSent(w: World, nxt: Value, v: byte)
    requires 10 <= nxt <= 11 && |w.a.sent| == nxt - 10 && w.a.got == []
    requires w.a.block == SideBlock(10, nxt, 20, NO_FLAGS, Established)
    ensures Next(w, Emit(SideA, [v]))
            == w.(a := SideA1(10, nxt + 1, NO_FLAGS, Established, w.a.sent + [Data(v)]),
                  fromA := w.fromA + [Byte(nxt, v)])
  {
    assert EmitPending(w.a.block, 1) == Sent(SideBlock(10, nxt + 1, 20, NO_FLAGS, Established), Byte(nxt, v).seg);
    assert Octets([v][..1], false) == [Data(v)];
  }

  lemma {:induction false} ByteTaken(w: World, i: nat, v: byte, s: seq<Octet>)
    requires |s| <= 1 && i < |w.fromA| && w.fromA[i] == Byte(10 + |s|, v) && w.b == SideB1(NO_FLAGS, s)
    ensures Next(w, Arrive(SideB, i)) == w.(b := SideB1(ACK, s + [Data(v)]))
  {
    assert Recv(w.b.block, w.fromA[i].seg) == Result(SideBlock(20, 20, 11 + |s|, ACK, Established), NoError);
  }

  lemma {:induction false} ByteAcknowledged(w: World, s: seq<Octet>)
    requires |s| <= 2 && w.b == SideB1(ACK, s)
    ensures Next(w, Emit(SideB, [])) == w.(b := SideB1(NO_FLAGS, s), fromB := w.fromB + [PureAck(10 + |s|)])
  {
    assert EmitPending(w.b.block, 0) == Sent(SideB1(NO_FLAGS, s).block, PureAck(10 + |s|).seg);
    assert Octets([][..0], false) == [];
  }

  lemma {:induction false} AckTaken(w: World, i: nat, s: seq<Octet>)
    requires i < |w.fromB| && w.fromB[i] == PureAck(12) && w.a == SideA1(10, 12, NO_FLAGS, Established, s)
    ensures Next(w, Arrive(SideA, i)) == w.(a := SideA1(12, 12, NO_FLAGS, Established, s))
  {
    assert Recv(w.a.block, w.fromB[i].seg) == Result(SideBlock(12, 12, 20, NO_FLAGS, Established), NoError);
    assert [] + w.fromB[i].octets == [];
  }

  const CLOSING: seq<Octet> := [Data(1), Data(2), Fin]

  lemma {:induction false} FinGoesOut(w: World)
    requires w.a == SideA1(12, 12, FIN, Established, CLOSING[..2])
    ensures Next(w, Emit(SideA, []))
            == w.(a := SideA1(12, 13, NO_FLAGS, FinWait1, CLOSING),
                  fromA := w.fromA + [Pkt(Segment(12, 20, 0, 1000, FINACK), [Fin], 2, 0)])
  {
    assert EmitPending(w.a.block, 0)
           == Sent(SideBlock(12, 13, 20, NO_FLAGS, FinWait1), Segment(12, 20, 0, 1000, FINACK));
    assert Octets([][..0], true) == [Fin];
    assert CLOSING[..2] + [Fin] == CLOSING;
  }

  lemma {:induction false} OldAckTaken(w: World)
    requires |w.fromB| > 0 && w.fromB[0] == PureAck(11) && w.a == SideA1(12, 13, NO_FLAGS, FinWait1, CLOSING)
    ensures Next(w, Arrive(SideA, 0)) == w.(a := SideA1(11, 13, ACK, FinWait2, CLOSING))
  {
    assert Recv(w.a.block, w.fromB[0].seg) == Result(SideBlock(11, 13, 20, ACK, FinWait2), NoError);
    assert [] + w.fromB[0].octets == [];
  }

  lemma {:induction false} RunsSnoc(w: World, events: seq<Event>, w1: World, e: Event, w2: World)
    requires Runs(w, events, w1) && Allowed(w1, e) && Next(w1, e) == w2
    ensures Runs(w, events + [e], w2)
    decreases |events|
  {
    if events == [] {
      assert ([] + [e])[1..] == [];
    } else {
      RunsSnoc(Next(w, events[0]), events[1..], w1, e, w2);
      assert (events + [e])[1..] == events[1..] + [e];
    }
  }

  const ONE: seq<Octet> := [Data(1)]
  const TWO: seq<Octet> := [Data(1), Data(2)]

  /** Side A has sent both bytes. */
  function Midway(a: Peer, b: Peer, fromB: seq<Pkt>): World {
    World(a, b, [Byte(10, 1), Byte(11, 2)], fromB)
  }

  const WAITING: Peer := SideA1(10, 12, NO_FLAGS, Established, TWO)

  lemma {:induction false} BothSent()
    ensures Runs(FRESH, SENDING, Midway(WAITING, FRESH.b, []))
  {
    var w1 := FRESH.(a := SideA1(10, 11, NO_FLAGS, Established, ONE), fromA := [Byte(10, 1)]);
    ByteSent(FRESH, 10, 1);
    assert Runs(FRESH, [], FRESH);
    RunsSnoc(FRESH, [], FRESH, Emit(SideA, [1]), w1);
    ByteSent(w1, 11, 2);
    RunsSnoc(FRESH, [Emit(SideA, [1])], w1, Emit(SideA, [2]), Midway(WAITING, FRESH.b, []));
    assert [Emit(SideA, [1])] + [Emit(SideA, [2])] == SENDING;
  }

  /** A byte arrives at side B, which has accepted s, and B acknowledges it. */
  lemma {:induction false} Acknowledged(events: seq<Event>, v: byte, s: seq<Octet>, t: seq<Octet>, fromB: seq<Pkt>)
    requires |s| < 2 && v == 1 + |s| && t == s + [Data(v)]
    requires Runs(FRESH, events, Midway(WAITING, SideB1(NO_FLAGS, s), fromB))
    ensures Runs(FRESH, events + [Arrive(SideB, |s|), Emit(SideB, [])],
                 Midway(WAITING, SideB1(NO_FLAGS, t), fromB + [PureAck(11 + |s|)]))
  {
    var i := |s|;
    var w := Midway(WAITING, SideB1(NO_FLAGS, s), fromB);
    var w1 := w.(b := SideB1(ACK, t));
    ByteTaken(w, i, v, s);
    RunsSnoc(FRESH, events, w, Arrive(SideB, i), w1);
    ByteAcknowledged(w1, t);
    var w2 := w1.(b := SideB1(NO_FLAGS, t), fromB := fromB + [PureAck(11 + i)]);
    RunsSnoc(FRESH, events + [Arrive(SideB, i)], w1, Emit(SideB, []), w2);
    assert events + [Arrive(SideB, i)] + [Emit(SideB, [])] == events + [Arrive(SideB, i), Emit(SideB, [])];
  }

  lemma {:induction false} RunsThree(events: seq<Event>, w0: World, d: Event, w1: World, e: Event, w2: World,
                                     f: Event, w3: World)
    requires Runs(FRESH, events, w0) && Allowed(w0, d) && Next(w0, d) == w1
    requires Allowed(w1, e) && Next(w1, e) == w2 && Allowed(w2, f) && Next(w2, f) == w3
    ensures Runs(FRESH, events + [d, e, f], w3)
  {
    RunsSnoc(FRESH, events, w0, d, w1);
    RunsSnoc(FRESH, events + [d], w1, e, w2);
    RunsSnoc(FRESH, events + [d] + [e], w2, f, w3);
    assert events + [d] + [e] + [f] == events + [d, e, f];
  }

  /** Side A takes the second acknowledgment, closes, and sends its FIN. */
  lemma {:induction false} FinSent(events: seq<Event>, b: Peer) returns (w: World)
    requires Runs(FRESH, events, Midway(WAITING, b, [PureAck(11), PureAck(12)]))
    ensures Runs(FRESH, events + [Arrive(SideA, 1), UserClose(SideA), Emit(SideA, [])], w)
    ensures w.a == SideA1(12, 13, NO_FLAGS, FinWait1, CLOSING) && w.b == b && w.fromB == [PureAck(11), PureAck(12)]
  {
    var w0 := Midway(WAITING, b, [PureAck(11), PureAck(12)]);
    var w1 := w0.(a := SideA1(12, 12, NO_FLAGS, Established, TWO));
    var w2 := w0.(a := SideA1(12, 12, FIN, Established, TWO));
    AckTaken(w0, 1, TWO);
    CloseQueued(w1, w2);
    assert CLOSING[..2] == TWO;
    FinGoesOut(w2);
    w := w2.(a := SideA1(12, 13, NO_FLAGS, FinWait1, CLOSING),
             fromA := w2.fromA + [Pkt(Segment(12, 20, 0, 1000, FINACK), [Fin], 2, 0)]);
    RunsThree(events, w0, Arrive(SideA, 1), w1, UserClose(SideA), w2, Emit(SideA, []), w);
  }

  lemma {:induction false} CloseQueued(w: World, w': World)
    requires w.a == SideA1(12, 12, NO_FLAGS, Established, TWO) && w' == w.(a := SideA1(12, 12, FIN, Established, TWO))
    ensures Next(w, UserClose(SideA)) == w'
  {
    assert NO_FLAGS.And(ACK).Or(FIN) == FIN;
  }

  /** Outside Established acknowledgments are not screened: in this run from a good start a closing side takes an
      acknowledgment that is older than its SND.UNA, which goes back, and is in FinWait2 although nobody has
      acknowledged its FIN. */
  lemma {:induction false} ClosingSideGoesBack() returns (w: World)
    ensures Start(FRESH) && Runs(FRESH, DELAYED, w)
    ensures w.a.block.state.FinWait1? && w.a.block.snd.una == 12 && w.b.got == TWO
    ensures var a := Next(w, Arrive(SideA, 0)).a.block;
            a.state.FinWait2? && a.snd.una == 11 && a.snd.nxt == 13
  {
    BothAcknowledged();
    w := FinSent(SECOND, SideB1(NO_FLAGS, TWO));
    OldAckTaken(w);
  }

  lemma {:induction false} BothAcknowledged()
    ensures Runs(FRESH, SECOND, Midway(WAITING, SideB1(NO_FLAGS, TWO), [PureAck(11), PureAck(12)]))
  {
    BothSent();
    Acknowledged(SENDING, 1, [], ONE, []);
    assert [] + [PureAck(11)] == [PureAck(11)];
    Acknowledged(FIRST, 2, ONE, TWO, [PureAck(11)]);
    assert [PureAck(11)] + [PureAck(12)] == [PureAck(11), PureAck(12)];
  }
}
