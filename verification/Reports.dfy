/** What a connection tells the stack and its user (stacks/tcpconn.go): when a connection is over, what remains of one
    that was reset, and what Open and Close of a connection come to. Said on the segment and on the connection before
    and after it. */
module Reports {
  import SeqNum
  import opened Segments
  import opened Control
  import opened Rings
  import opened Conns
  import opened Draining

  // ---------------------------------------------------------------------------------------------
  // Resets

  /** A reset that a connection past its handshake believes: it is at the next number and within the window. A SYN in
      it lifts the test on the window. */
  predicate Kills(b: Block, seg: Segment) {
    && b.state !in {Closed, Listen, SynSent, SynRcvd}
    && seg.flags.rst && seg.seqno == b.rcv.nxt && seg.wnd <= 65535
    && (seg.flags.syn || if b.rcv.wnd == 0 then seg.dataLen == 0 else seg.Len() <= b.rcv.wnd)
  }

  /** The two tests on the window say that an empty or full stretch from the next number fits it. */
  lemma {:induction false} NextFits(b: Block, seg: Segment)
    requires seg.seqno == b.rcv.nxt && seg.wnd <= 65535 && !b.state.Closed? && !seg.flags.syn
    ensures CheckIncoming(b, seg) == NoError <==> if b.rcv.wnd == 0 then seg.dataLen == 0 else seg.Len() <= b.rcv.wnd
  {
  }

  /** Recv reports an error and leaves a Closed block exactly for a reset that is believed. */
  lemma {:induction false} KilledIff(b: Block, seg: Segment)
    requires !b.state.IsClosed()
    ensures var r := Control.Recv(b, seg);
            r.err != NoError && r.block.state.Closed? <==> Kills(b, seg)
    ensures Kills(b, seg) ==> Control.Recv(b, seg) == Result(CloseBlock(b), NetClosed)
  {
    if seg.seqno == b.rcv.nxt && seg.wnd <= 65535 && !seg.flags.syn {
      NextFits(b, seg);
    }
    NotClosedByRefusal(b, seg);
  }

  lemma {:induction false} NotClosedByRefusal(b: Block, seg: Segment)
    requires !b.state.IsClosed()
    ensures var v := ValidateIncoming(b, seg);
            && (v.block.state.Closed? ==> v.err == NetClosed)
            && (v.err == NoError ==> v.block == b && (Handle(b, seg).err != NoError ==> Handle(b, seg).block == b))
  {
    if ValidateIncoming(b, seg).err == NoError {
      match b.state {
        case Listen =>
        case SynSent =>
        case SynRcvd =>
        case Established =>
        case FinWait1 =>
        case FinWait2 =>
        case Closing =>
        case CloseWait =>
        case LastAck =>
      }
    }
  }

  /** A receive ends the connection if and only if it was over before, or a reset that is believed ends it. It leaves
      a Closed block and no byte more or less in the rings. */
  lemma {:induction false} AbortedIff(c: Conn, seg: Segment, payload: seq<byte>)
    requires c.Valid()
    ensures var (c', event) := RecvRx(c, seg, payload);
            && (event.Aborted? <==> c.scb.state in {Closed, TimeWait} || Kills(c.scb, seg))
            && (event.Aborted? && !c.scb.state.IsClosed() ==> c' == c.(scb := CloseBlock(c.scb)))
            && (c.scb.state in {Closed, TimeWait} ==> c' == c)
  {
    if !c.scb.state.IsClosed() {
      KilledIff(c.scb, seg);
      if Kills(c.scb, seg) {
        assert !IncomingIsKeepalive(c.scb, seg);
      }
    }
  }

  /** What remains of a connection whose block is Closed: whatever else happens and arrives, SYN and RST included,
      nothing is written, read, sent or taken. */
  lemma {:induction false} OverStep(s: Session, e: UserEvent)
    requires s.conn.Valid() && s.conn.scb.state.Closed?
    ensures Next(s, e).Going?
    ensures var t := Next(s, e).s;
            && t.conn.Valid() && t.conn.scb.state.Closed? && !PipeOpen(t.conn)
            && t == s.(conn := t.conn) && t.conn.tx == s.conn.tx && t.conn.rx == s.conn.rx
    ensures e.RecvCall? ==> forall idle ::
              RecvReport(s.conn, e.seg, e.payload, idle) == EndOfConn && Next(s, e).s == s
    ensures e.SendCall? ==> !SendTx(s.conn, e.room).1.Emitted?
    ensures e.CloseCall? && s.conn.tx == [] ==> CloseConn(s.conn).1 == ConnNotExist
  {
    match e {
      case Write(b) =>
      case Read(n) =>
      case CloseCall =>
      case SendCall(room) => ClosedSendsNothing(s.conn, room);
      case RecvCall(seg, payload) =>
        AbortedIff(s.conn, seg, payload);
        assert s.counted + [] == s.counted && s.accepted + [] == s.accepted;
    }
  }

  lemma {:induction false} ClosedSendsNothing(c: Conn, room: nat)
    requires c.Valid() && c.scb.state.Closed?
    ensures var (c', e) := SendTx(c, room);
            && (e.Yielded? || e.SendFailed?) && c'.scb.state.Closed? && c'.Valid() && c'.tx == c.tx && c'.rx == c.rx
  {
    var b := SetRecvWindow(c.scb, c.Free());
    var e := EmitPending(b, Min(|c.tx|, room));
    assert b.snd.MaxSend() <= b.snd.wnd || PendingSegment(b, Min(|c.tx|, room)).1 != Panic;
    assert e.Idle? || e.Fault?;
  }

  predicate RunsAny(s: Session, events: seq<UserEvent>, s': Session)
    decreases |events|
  {
    if events == [] then s == s'
    else s.conn.Valid() && Next(s, events[0]).Going? && RunsAny(Next(s, events[0]).s, events[1..], s')
  }

  lemma {:induction false} OverForGood(s: Session, events: seq<UserEvent>, s': Session)
    requires s.conn.Valid() && s.conn.scb.state.Closed? && RunsAny(s, events, s')
    ensures s'.conn.Valid() && s'.conn.scb.state.Closed? && !PipeOpen(s'.conn) && s' == s.(conn := s'.conn)
    decreases |events|
  {
    if events != [] {
      OverStep(s, events[0]);
      OverForGood(Next(s, events[0]).s, events[1..], s');
    }
  }

  /** A connection that was reset reports its end, and in every run that follows it stays over: the user can neither
      write nor read, nothing is sent, and every segment, whatever it is, reports the end again. */
  lemma {:induction false} ResetEndsConnection(s: Session, seg: Segment, payload: seq<byte>, idle: bool,
                                               events: seq<UserEvent>, s': Session, later: Segment,
                                               laterPayload: seq<byte>, room: nat)
    requires s.conn.Valid() && Kills(s.conn.scb, seg) && !s.conn.scb.state.TimeWait?
    requires RunsAny(Took(s, seg, payload), events, s')
    ensures RecvReport(s.conn, seg, payload, idle) == EndOfConn
    ensures s'.wrote == s.wrote && s'.sent == s.sent && s'.read == s.read && s'.counted == s.counted
    ensures !PipeOpen(s'.conn) && s'.conn.Valid() && !SendTx(s'.conn, room).1.Emitted?
    ensures RecvReport(s'.conn, later, laterPayload, idle) == EndOfConn
  {
    AbortedIff(s.conn, seg, payload);
    assert s.counted + [] == s.counted && s.accepted + [] == s.accepted;
    OverForGood(Took(s, seg, payload), events, s');
    OverStep(s', RecvCall(later, laterPayload));
    OverStep(s', SendCall(room));
  }

  // ---------------------------------------------------------------------------------------------
  // What is reported

  /** The connection has closed, still has something to do, and has done nothing for too long. */
  predicate GivesUp(c: Conn, idle: bool) {
    c.closing && idle && !(c.tx == [] && c.scb.state == Established)
  }

  /** Nothing is pending, and the block is in TimeWait, or Closed without a Close by the user. */
  predicate Finished(c: Conn) {
    c.scb.pending0 == NO_FLAGS && (c.scb.state == TimeWait || (c.scb.state == Closed && !c.closing))
  }

  /** The report of a look at a connection, said of the connection it leaves. */
  lemma {:induction false} LookReports(c: Conn, idle: bool)
    ensures var c' := StateCheck(c);
            && (CheckReport(c, idle) == EndOfConn <==> GivesUp(c', idle) || Finished(c'))
            && (CheckReport(c, idle) == FlagPending <==> !GivesUp(c', idle) && c'.scb.pending0 != NO_FLAGS)
  {
  }

  lemma {:induction false} DeliveredLooks(c: Conn, seg: Segment, payload: seq<byte>)
    requires c.Valid() && RecvRx(c, seg, payload).1.Delivered?
    ensures RecvRx(c, seg, payload).0 == StateCheck(Admitted(c, seg, payload))
  {
  }

  /** A receive reports the end of the connection if and only if the connection was over before, or a reset that is
      believed ends it, or the segment was delivered and leaves the connection finished or giving up. */
  lemma {:induction false} EndReportedIff(c: Conn, seg: Segment, payload: seq<byte>, idle: bool)
    requires c.Valid()
    ensures var (c', event) := RecvRx(c, seg, payload);
            RecvReport(c, seg, payload, idle) == EndOfConn <==>
              || c.scb.state in {Closed, TimeWait}
              || Kills(c.scb, seg)
              || (event.Delivered? && (GivesUp(c', idle) || Finished(c')))
  {
    AbortedIff(c, seg, payload);
    if RecvRx(c, seg, payload).1.Delivered? {
      DeliveredLooks(c, seg, payload);
      LookReports(Admitted(c, seg, payload), idle);
    }
  }

  /** A receive asks for another call exactly when it delivered a segment and left something pending. */
  lemma {:induction false} RecvFlagsIff(c: Conn, seg: Segment, payload: seq<byte>, idle: bool)
    requires c.Valid()
    ensures var (c', event) := RecvRx(c, seg, payload);
            RecvReport(c, seg, payload, idle) == FlagPending <==>
              event.Delivered? && !GivesUp(c', idle) && c'.scb.pending0 != NO_FLAGS
  {
    if RecvRx(c, seg, payload).1.Delivered? {
      DeliveredLooks(c, seg, payload);
      LookReports(Admitted(c, seg, payload), idle);
    }
  }

  /** The same of a send. A dialing connection asks for another call until its SYN is due. */
  lemma {:induction false} SendReportsIff(c: Conn, room: nat, synDue: bool, idle: bool)
    requires c.Valid()
    ensures var (c', event) := SendNow(c, room, synDue);
            var r := SendReport(c, room, synDue, idle);
            if c.scb.state == SynSent then r == if event.Emitted? then NoReport else FlagPending
            else
              var looked := event.Yielded? || event.Emitted?;
              && (r == EndOfConn <==> looked && (GivesUp(c', idle) || Finished(c')))
              && (r == FlagPending <==> looked && !GivesUp(c', idle) && c'.scb.pending0 != NO_FLAGS)
  {
    if !c.scb.state.SynSent? {
      var n := Min(|c.tx|, room);
      var e := EmitPending(SetRecvWindow(c.scb, c.Free()), n);
      LookReports(Handed(c, n, e), idle);
    }
  }

  /** The acknowledgment of its FIN closes a connection that the peer closed first, and that is not reported as the end
      when the user has called Close: it takes three idle seconds or another segment. */
  lemma {:induction false} PassiveCloseLingers(c: Conn, seg: Segment, idle: bool)
    requires c.Valid() && c.closing && c.scb.state == LastAck && seg.dataLen == 0
    requires !IncomingIsKeepalive(c.scb, seg) && CheckIncoming(c.scb, seg) == NoError
    requires seg.flags.ack && !seg.flags.rst
    ensures var (c', event) := RecvRx(c, seg, []);
            && event.Delivered? && c'.scb.state == Closed && c'.Valid() && c'.scb.pending0 == NO_FLAGS
            && RecvReport(c, seg, [], idle) == (if idle then EndOfConn else NoReport)
            && forall later: Segment :: RecvReport(c', later, [], idle) == EndOfConn
  {
    OrNothing(NO_FLAGS);
    assert Control.Recv(c.scb, seg).block.state.Closed?;
    DeliveredLooks(c, seg, []);
  }

  // ---------------------------------------------------------------------------------------------
  // Open and Close of a connection

  /** Close of a connection: with bytes waiting it always succeeds and leaves the block alone. Without, it fails where
      the block cannot be closed, and leaves the block alone then. In any case the user can neither write nor read
      afterwards, and the connection closes from now on unless there was none. */
  lemma {:induction false} CloseConnMeans(c: Conn)
    requires c.Valid()
    ensures var (c', err) := CloseConn(c);
            && (err == NoError <==> c.tx != [] || c.scb.state in {Listen, SynSent, SynRcvd, Established, CloseWait})
            && (c'.closing <==> c.closing || c.tx != [] || c.scb.state != Closed)
            && (c.tx != [] || err != NoError ==> c'.scb == c.scb) && !PipeOpen(c')
            && c' == c.(scb := c'.scb, closing := c'.closing)
  {
  }

  /** Open of a connection succeeds exactly where Open of its block does, with the receive ring as the window; a refused
      one changes nothing. A dialing connection has sent its SYN to itself: it counts as out. */
  lemma {:induction false} OpenConnIff(c: Conn, iss: SeqNum.Value, state: State)
    requires c.Valid()
    ensures var (c', err) := OpenConn(c, iss, state);
            && (err == NoError <==> c.scb.state in {Closed, Listen} && state in {Listen, SynSent} && c.rxCap <= 65535)
            && (err != NoError ==> c' == c)
            && (err == NoError ==> c'.tx == [] && c'.rx == [] && c' == c.(scb := c'.scb, tx := [], rx := []))
            && (err == NoError ==>
                  && c'.scb.state == state && c'.scb.pending0 == NO_FLAGS && c'.scb.pending1 == NO_FLAGS
                  && c'.scb.rcv == RecvSpace(0, 0, c.rxCap)
                  && c'.scb.snd == SendSpace(iss, iss, if state == SynSent then SeqNum.Add(iss, 1) else iss, 1))
  {
    WithoutAll(SYN, SYN);
  }

  /** A write takes all its bytes as long as they fit, up to the last free byte of the ring, and none beyond that. A
      read gives as many bytes as there are and are asked for. */
  lemma {:induction false} WritesAndReads(c: Conn, b: seq<byte>, n: nat)
    requires c.Valid()
    ensures |c.tx| + |b| <= c.txCap ==> WriteTx(c, b) == c.(tx := c.tx + b)
    ensures |c.tx| + |b| > c.txCap ==> WriteTx(c, b) == c
    ensures WriteTx(c, b).Valid() && ReadRx(c, n).0.Valid()
    ensures |ReadRx(c, n).1| == Min(n, |c.rx|) && ReadRx(c, n).1 <= c.rx
    ensures ReadRx(c, n).0 == c.(rx := ReadRx(c, n).0.rx)
  {
  }
}
