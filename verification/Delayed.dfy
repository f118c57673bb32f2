/** The delayed close (stacks/tcpconn.go): Close waits for the bytes the user has written, and ends in a FIN once they
    have gone out. Against any peer that sends neither SYN nor RST, at every point of every run. */
module Delayed {
  import SeqNum
  import opened Segments
  import opened Control
  import opened Rings
  import opened Conns
  import Hostile
  import opened Draining

  /** The user has closed an established connection, and nothing waits to be sent before the FIN. */
  predicate Due(c: Conn) {
    c.closing && c.scb.state.Established? && c.tx == []
  }

  /** The connection looks at its state: at the end of a send that came to an end and of a receive that delivered, and
      when the user closes. */
  predicate Looks(s: Session, e: UserEvent)
    requires s.conn.Valid()
  {
    match e
    case CloseCall => true
    case SendCall(room) => SendTx(s.conn, room).1.Yielded? || SendTx(s.conn, room).1.Emitted?
    case RecvCall(seg, payload) => RecvRx(s.conn, seg, payload).1.Delivered?
    case _ => false
  }

  /** A segment that is next in order and acknowledges what was never sent; it is dropped. An old acknowledgment with
      nothing else in it comes before that. */
  predicate AcksTheFuture(b: Block, seg: Segment) {
    && CheckIncoming(b, seg) == NoError && seg.flags.ack && !SeqNum.LessThanEq(seg.ackno, b.snd.nxt)
    && (seg.dataLen > 0 || seg.flags.fin || SeqNum.LessThan(b.snd.una, seg.ackno))
  }

  predicate Erases(s: Session, e: UserEvent) {
    e.RecvCall? && !IncomingIsKeepalive(s.conn.scb, e.seg) && AcksTheFuture(s.conn.scb, e.seg)
  }

  /** Whether the connection has looked at its state since the last segment that erases what is pending. */
  predicate Kept(s: Session, events: seq<UserEvent>, kept: bool)
    decreases |events|
  {
    if events == [] then kept
    else
      && s.conn.Valid() && Next(s, events[0]).Going?
      && Kept(Next(s, events[0]).s, events[1..], Looks(s, events[0]) || (kept && !Erases(s, events[0])))
  }

  /** The FIN that ends a connection's stream. */
  predicate EmitsFin(c: Conn, room: nat) {
    && c.Valid()
    && match SendTx(c, room).1
       case Emitted(seg, payload) => seg.flags.fin && seg.seqno == c.scb.snd.nxt && seg.dataLen == 0 && payload == []
       case _ => false
  }

  // ---------------------------------------------------------------------------------------------
  // One step

  lemma {:induction false} FinBlockSends(b: Block)
    requires Hostile.Settled(b) && b.state.Established? && b.pending0.fin && b.rcv.wnd <= MAX_WINDOW
    ensures var e := EmitPending(b, 0);
            && e.Sent? && e.seg.flags.fin && e.seg.dataLen == 0 && e.seg.seqno == b.snd.nxt
            && e.block.state.FinWait1?
  {
    HasFin(b.pending0.Or(ACK));
  }

  lemma {:induction false} QuietBlockSends(b: Block)
    requires Hostile.Settled(b) && b.state.Established? && !b.pending0.fin && b.rcv.wnd <= MAX_WINDOW
    ensures var e := EmitPending(b, 0);
            && (e.Idle? || (e.Sent? && !e.seg.flags.fin))
            && e.block.state.Established?
  {
  }

  /** What the next send of a connection whose FIN is due does. */
  lemma {:induction false} DueSends(c: Conn, room: nat)
    requires c.Valid() && Hostile.Settled(c.scb) && Due(c) && c.rxCap <= MAX_WINDOW
    ensures var (c', e) := SendTx(c, room);
            if c.scb.pending0.fin then EmitsFin(c, room) && c'.scb.state.FinWait1?
            else Due(c') && c'.scb.pending0.fin && !EmitsFin(c, room) && (e.Yielded? || e.Emitted?)
  {
    var b := SetRecvWindow(c.scb, c.Free());
    if c.scb.pending0.fin {
      FinBlockSends(b);
    } else {
      QuietBlockSends(b);
    }
  }

  lemma {:induction false} SendLooks(c: Conn, room: nat)
    requires c.Valid() && Hostile.Settled(c.scb)
    ensures var (c', e) := SendTx(c, room);
            && (e.Yielded? || e.Emitted? ==> Due(c') ==> c'.scb.pending0.fin)
            && (e.SendFailed? ==> (Due(c') <==> Due(c)) && c'.scb.pending0 == c.scb.pending0)
  {
    Hostile.EmitInSequence(SetRecvWindow(c.scb, c.Free()), Min(|c.tx|, room));
  }

  /** The tests on an arrival keep a pending FIN, unless it acknowledges the future. */
  lemma {:induction false} ScreenedFin(b: Block, seg: Segment)
    requires Hostile.Settled(b) && b.state.Established? && Hostile.NoSynRst(seg.flags)
    ensures var v := ValidateIncoming(b, seg);
            && v.block.state.Established? && (v.err == NoError ==> v.block == b && !AcksTheFuture(b, seg))
            && (v.block.pending0.fin <==> b.pending0.fin && !AcksTheFuture(b, seg)) && v.err != PanicUnexpectedState
  {
  }

  lemma {:induction false} HandledFin(b: Block, seg: Segment)
    requires b.state.Established?
    ensures var h := Handle(b, seg);
            && h.err == NoError
            && (h.block.state.Established? ==> h.block.pending0 == b.pending0 && !h.pending.fin)
  {
  }

  predicate FinStaysIn(b: Block, seg: Segment, r: Result) {
    && (r.block.state.Established? ==> (r.block.pending0.fin <==> b.pending0.fin && !AcksTheFuture(b, seg)))
    && (r.err == NoError ==> !AcksTheFuture(b, seg)) && r.err != PanicUnexpectedState
  }

  /** What an arrival does to a pending FIN. */
  lemma {:induction false} FinStays(b: Block, seg: Segment)
    requires Hostile.Settled(b) && b.state.Established? && Hostile.NoSynRst(seg.flags)
    ensures FinStaysIn(b, seg, Control.Recv(b, seg))
  {
    ScreenedFin(b, seg);
    HandledFin(b, seg);
  }

  lemma {:induction false} FinishLooks(s: Session, r: Result, seg: Segment, payload: seq<byte>, kept: bool)
    requires s.conn.Valid() && (Due(s.conn) ==> (s.conn.scb.pending0.fin <==> kept))
    requires if s.conn.scb.state.Established? then FinStaysIn(s.conn.scb, seg, r) else !r.block.state.Established?
    ensures var (c', ev) := FinishRecv(s.conn, r, seg, payload);
            Due(c') ==> (c'.scb.pending0.fin <==> ev.Delivered? || (kept && !AcksTheFuture(s.conn.scb, seg)))
  {
  }

  lemma {:induction false} RecvLooks(s: Session, seg: Segment, payload: seq<byte>, kept: bool)
    requires Inv(s) && Hostile.NoSynRst(seg.flags) && (Due(s.conn) ==> (s.conn.scb.pending0.fin <==> kept))
    ensures var e := RecvCall(seg, payload);
            var t := Took(s, seg, payload);
            Due(t.conn) ==> (t.conn.scb.pending0.fin <==> Looks(s, e) || (kept && !Erases(s, e)))
  {
    var c := s.conn;
    if !c.scb.state.IsClosed() {
      RecvMoves(c.scb, seg);
      if c.scb.state.Established? {
        FinStays(c.scb, seg);
      }
      FinishLooks(s, Control.Recv(c.scb, seg), seg, payload, kept);
    }
  }

  lemma {:induction false} StepLooks(s: Session, e: UserEvent, kept: bool)
    requires Inv(s) && Allowed(e) && Next(s, e).Going? && (Due(s.conn) ==> (s.conn.scb.pending0.fin <==> kept))
    ensures var t := Next(s, e).s;
            Due(t.conn) ==> (t.conn.scb.pending0.fin <==> Looks(s, e) || (kept && !Erases(s, e)))
  {
    match e {
      case Write(b) =>
      case Read(n) =>
      case CloseCall =>
      case SendCall(room) => SendLooks(s.conn, room);
      case RecvCall(seg, payload) => RecvLooks(s, seg, payload, kept);
    }
  }

  lemma {:induction false} RunLooks(s: Session, events: seq<UserEvent>, s': Session, kept: bool)
    requires Inv(s) && Runs(s, events, s') && (Due(s.conn) ==> (s.conn.scb.pending0.fin <==> kept))
    ensures Due(s'.conn) ==> (s'.conn.scb.pending0.fin <==> Kept(s, events, kept))
    decreases |events|
  {
    if events != [] {
      StepLooks(s, events[0], kept);
      StepKeeps(s, events[0]);
      RunLooks(Next(s, events[0]).s, events[1..], s', Looks(s, events[0]) || (kept && !Erases(s, events[0])));
    }
  }

  lemma {:induction false} CapsStay(s: Session, events: seq<UserEvent>, s': Session)
    requires Runs(s, events, s')
    ensures s'.conn.rxCap == s.conn.rxCap && (s.conn.closing ==> s'.conn.closing && s'.wrote == s.wrote)
    decreases |events|
  {
    if events != [] {
      var e := events[0];
      match e {
        case Write(b) =>
        case Read(n) =>
        case CloseCall =>
        case SendCall(room) => SendLeavesRx(s, room);
        case RecvCall(seg, payload) => ClosingStays(s, seg, payload);
      }
      CapsStay(Next(s, e).s, events[1..], s');
    }
  }

  // ---------------------------------------------------------------------------------------------
  // The results

  /** At every point of every run at which the user has closed, the connection is still established and nothing is left
      to send: the next send is the FIN if and only if no segment has acknowledged the future since the connection last
      looked at its state. If one has, the FIN is the send after. */
  lemma {:induction false} FinGoesOutIff(s: Session, events: seq<UserEvent>, s': Session, room: nat, room2: nat)
    requires Begun(s) && s.conn.rxCap <= MAX_WINDOW && Runs(s, events, s') && Due(s'.conn)
    ensures s'.conn.Valid() && (EmitsFin(s'.conn, room) <==> Kept(s, events, false))
    ensures !EmitsFin(s'.conn, room) ==> EmitsFin(SendTx(s'.conn, room).0, room2)
    ensures s'.sent == s'.wrote
  {
    RunKeeps(s, events, s');
    assert s'.conn.Valid();
    RunLooks(s, events, s', false);
    CapsStay(s, events, s');
    DueSends(s'.conn, room);
    if !s'.conn.scb.pending0.fin {
      Hostile.EmitInSequence(SetRecvWindow(s'.conn.scb, s'.conn.Free()), 0);
      StillSettled(s', room);
      DueSends(SendTx(s'.conn, room).0, room2);
    }
  }

  lemma {:induction false} StillSettled(s: Session, room: nat)
    requires Inv(s) && Due(s.conn) && s.conn.rxCap <= MAX_WINDOW
    ensures SendTx(s.conn, room).0.Valid() && Hostile.Settled(SendTx(s.conn, room).0.scb)
    ensures SendTx(s.conn, room).0.rxCap == s.conn.rxCap
  {
    DueSends(s.conn, room);
    StepKeeps(s, SendCall(room));
    SendLeavesRx(s, room);
  }

  /** In particular the FIN is next right after the send or the receive that left nothing to send, and right after a
      Close that found nothing. */
  lemma {:induction false} FinIsNext(s: Session, events: seq<UserEvent>, t: Session, e: UserEvent, room: nat)
    requires Begun(s) && s.conn.rxCap <= MAX_WINDOW && Runs(s, events, t)
    requires t.conn.Valid() && Allowed(e) && Looks(t, e) && Next(t, e).Going? && Due(Next(t, e).s.conn)
    ensures EmitsFin(Next(t, e).s.conn, room)
  {
    RunKeeps(s, events, t);
    RunLooks(s, events, t, false);
    CapsStay(s, events, t);
    StepLooks(t, e, Kept(s, events, false));
    StepKeeps(t, e);
    var u := Next(t, e).s;
    assert Runs(t, [e], u);
    CapsStay(t, [e], u);
    DueSends(u.conn, room);
  }

  /** A Close with bytes waiting says nothing by itself. After it nothing more is written, and when a run of whatever
      else may happen has sent the last byte in Established, exactly what was written at the time of the Close has
      gone out and the FIN follows: it is one of the next two segments. */
  lemma {:induction false} DelayedCloseEndsInFin(s: Session, events: seq<UserEvent>, t: Session,
                                                 more: seq<UserEvent>, s': Session, room: nat, room2: nat)
    requires Begun(s) && s.conn.rxCap <= MAX_WINDOW && Runs(s, events, t)
    requires t.conn.scb.state.Established? && t.conn.tx != []
    requires Runs(t.(conn := CloseConn(t.conn).0), more, s') && s'.conn.scb.state.Established? && s'.conn.tx == []
    ensures CloseConn(t.conn) == (t.conn.(closing := true), NoError)
    ensures s'.conn.Valid() && s'.sent == s'.wrote == t.wrote
    ensures EmitsFin(s'.conn, room) || EmitsFin(SendTx(s'.conn, room).0, room2)
  {
    var u := t.(conn := CloseConn(t.conn).0);
    RunKeeps(s, events, t);
    CapsStay(s, events, t);
    CapsStay(u, more, s');
    RunKeeps(u, more, s');
    DueSends(s'.conn, room);
    if !s'.conn.scb.pending0.fin {
      StillSettled(s', room);
      DueSends(SendTx(s'.conn, room).0, room2);
    }
  }

  /** The control block itself does not look again: a segment that acknowledges the future makes it forget a Close as if
      it had never been called, and no other segment does. */
  lemma {:induction false} CloseForgottenIff(b: Block, seg: Segment)
    requires Hostile.Settled(b) && b.state == Established && !b.pending0.fin && Hostile.NoSynRst(seg.flags)
    ensures Close(b).err == NoError && Close(b).block.pending0.fin
    ensures Control.Recv(Close(b).block, seg).block == Control.Recv(b, seg).block <==> AcksTheFuture(b, seg)
  {
    var c := Close(b).block;
    if AcksTheFuture(b, seg) {
      FutureErases(b, seg);
      FutureErases(c, seg);
    } else {
      NotErased(c, seg);
      NeverPending(b, seg);
    }
  }

  lemma {:induction false} FutureErases(b: Block, seg: Segment)
    requires b.state == Established && AcksTheFuture(b, seg) && !seg.flags.rst
    ensures Control.Recv(b, seg) == Result(b.(pending0 := ACK), DropSegment)
  {
  }

  lemma {:induction false} NotErased(b: Block, seg: Segment)
    requires Hostile.Settled(b) && b.state == Established && b.pending0.fin && Hostile.NoSynRst(seg.flags)
    requires !AcksTheFuture(b, seg)
    ensures Control.Recv(b, seg).block.pending0.fin
  {
    ScreenedFin(b, seg);
    if ValidateIncoming(b, seg).err == NoError {
      FinJoined(b, seg);
    }
  }

  lemma {:induction false} FinJoined(b: Block, seg: Segment)
    requires b.state == Established
    ensures var h := Handle(b, seg);
            && h.err == NoError
            && (Accept(h.block, seg, h.pending).pending0.fin <==> b.pending0.fin)
  {
  }

  lemma {:induction false} NeverPending(b: Block, seg: Segment)
    requires Hostile.Settled(b) && b.state == Established && !b.pending0.fin && Hostile.NoSynRst(seg.flags)
    ensures !Control.Recv(b, seg).block.pending0.fin
  {
    ScreenedFin(b, seg);
    if ValidateIncoming(b, seg).err == NoError {
      FinJoined(b, seg);
    }
  }

  /** Close with one byte waiting: the byte goes out without a FIN, and the segment after it is the FIN. */
  lemma {:induction false} OneByteThenFin(c: Conn, x: byte, room: nat)
    requires c.Valid() && Hostile.Settled(c.scb) && c.scb.state.Established? && c.rxCap <= MAX_WINDOW
    requires !c.closing && c.tx == [x]
    requires !c.scb.pending0.fin && 0 < c.scb.snd.MaxSend() <= c.scb.snd.wnd && room > 0
    ensures var (c1, err) := CloseConn(c);
            var (c2, e) := SendTx(c1, room);
            && err == NoError && e.Emitted? && e.payload == [x] && !e.seg.flags.fin && e.seg.seqno == c.scb.snd.nxt
            && EmitsFin(c2, room) && SendTx(c2, room).1.seg.seqno == SeqNum.Add(c.scb.snd.nxt, 1)
  {
    var c1 := CloseConn(c).0;
    var b := SetRecvWindow(c1.scb, c1.Free());
    ByteBlockSends(b);
    Hostile.EmitInSequence(b, 1);
    var (c2, e) := SendTx(c1, room);
    assert c.tx[1..] == [];
    FinPending(c1, EmitPending(b, 1));
    DueSends(c2, room);
  }

  lemma {:induction false} ByteBlockSends(b: Block)
    requires Hostile.Settled(b) && b.state.Established? && !b.pending0.fin && b.rcv.wnd <= MAX_WINDOW
    requires 0 < b.snd.MaxSend() <= b.snd.wnd
    ensures var e := EmitPending(b, 1);
            && e.Sent? && !e.seg.flags.fin && e.seg.dataLen == 1 && e.seg.seqno == b.snd.nxt
            && e.block.state.Established? && e.block.snd.nxt == SeqNum.Add(b.snd.nxt, 1)
  {
  }

  lemma {:induction false} FinPending(c: Conn, e: Emission)
    requires c.Valid() && c.closing && |c.tx| == 1 && e.Sent? && e.seg.dataLen == 1
    requires Hostile.Settled(e.block) && e.block.state.Established?
    ensures var (c', ev) := FinishSend(c, 1, e);
            && ev == Emitted(e.seg, c.tx) && Due(c') && c'.scb.pending0.fin && Hostile.Settled(c'.scb)
            && c' == c.(tx := [], scb := c'.scb) && c'.scb.snd == e.block.snd
  {
  }
}
