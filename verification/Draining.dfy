/** One connection against any peer that sends neither SYN nor RST: what happens to the bytes the user wrote
    when one of the sides closes (stacks/tcpconn.go). */
module Draining {
  import SeqNum
  import opened Segments
  import opened Control
  import opened Rings
  import opened Conns
  import opened Hostile

  /** A connection with the bytes the user wrote to it and the payload bytes it has sent, those that its control block
      has counted in RCV.NXT, those that went into its receive ring, and those the user has read. */
  datatype Session = Session(conn: Conn, wrote: seq<byte>, sent: seq<byte>,
                             counted: seq<byte>, accepted: seq<byte>, read: seq<byte>)

  datatype UserEvent =
    | Write(b: seq<byte>)
    | Read(n: nat)
    | CloseCall
    | SendCall(room: nat)
    | RecvCall(seg: Segment, payload: seq<byte>)

  datatype Outcome = Going(s: Session) | Broken

  function Written(s: Session, b: seq<byte>): Session
    requires s.conn.Valid()
  {
    var c := WriteTx(s.conn, b);
    if PipeOpen(s.conn) then s.(conn := c, wrote := if c == s.conn then s.wrote else s.wrote + b) else s
  }

  function Transmitted(s: Session, r: (Conn, SendEvent)): Outcome {
    match r.1
    case Emitted(_, payload) => Going(s.(conn := r.0, sent := s.sent + payload))
    case SendPanic => Broken
    case _ => Going(s.(conn := r.0))
  }

  function Next(s: Session, e: UserEvent): Outcome
    requires s.conn.Valid()
  {
    match e
    case Write(b) => Going(Written(s, b))
    case Read(n) => Going(if PipeOpen(s.conn) then WasRead(s, ReadRx(s.conn, n)) else s)
    case CloseCall => Going(s.(conn := CloseConn(s.conn).0))
    case SendCall(room) => Transmitted(s, SendTx(s.conn, room))
    case RecvCall(seg, payload) =>
      if RecvRx(s.conn, seg, payload).1.RecvPanic? then Broken
      else Going(Took(s, seg, payload))
  }

  function WasRead(s: Session, r: (Conn, seq<byte>)): Session {
    s.(conn := r.0, read := s.read + r.1)
  }

  /** The session once a segment has arrived. */
  function Took(s: Session, seg: Segment, payload: seq<byte>): Session
    requires s.conn.Valid()
  {
    var r := RecvRx(s.conn, seg, payload);
    s.(conn := r.0,
       counted := s.counted + (if (r.1.Delivered? || r.1.RxFull?) && seg.dataLen > 0 then payload else []),
       accepted := s.accepted + (if r.1.Delivered? && seg.dataLen > 0 then payload else []))
  }

  predicate Allowed(e: UserEvent) {
    e.RecvCall? ==> NoSynRst(e.seg.flags)
  }

  predicate Runs(s: Session, events: seq<UserEvent>, s': Session)
    decreases |events|
  {
    if events == [] then s == s'
    else
      && s.conn.Valid() && Allowed(events[0]) && Next(s, events[0]).Going?
      && Runs(Next(s, events[0]).s, events[1..], s')
  }

  /** The states after this side's own close: its FIN went out before the peer's came in. */
  predicate ClosedFirst(state: State) {
    state.FinWait1? || state.FinWait2? || state.Closing? || state.TimeWait?
  }

  /** No FIN waits in front of unsent bytes. */
  predicate FinBehindData(c: Conn) {
    !c.scb.pending1.fin && (c.scb.pending0.fin ==> c.closing && c.tx == [])
  }

  predicate Inv(s: Session) {
    && s.conn.Valid() && Settled(s.conn.scb) && s.sent <= s.wrote
    && (s.conn.scb.state.Established? ==> s.wrote == s.sent + s.conn.tx && FinBehindData(s.conn))
    && (ClosedFirst(s.conn.scb.state) ==> s.wrote == s.sent && s.conn.tx == [])
  }

  // ---------------------------------------------------------------------------------------------
  // Steps

  lemma {:induction false} CheckKeeps(s: Session)
    requires Inv(s)
    ensures Inv(s.(conn := StateCheck(s.conn)))
  {
  }

  /** What an established connection sends: with bytes waiting, a segment that carries some of them and no FIN. */
  lemma {:induction false} EstablishedSends(b: Block, n: nat)
    requires Settled(b) && b.state.Established? && (n > 0 ==> !b.pending0.fin)
    ensures EmitPending(b, n).Sent? ==>
              var e := EmitPending(b, n);
              && e.seg.dataLen <= n && (n > 0 ==> 0 < e.seg.dataLen && !e.seg.flags.fin)
              && e.block.pending1 == NO_FLAGS
              && (e.block.state.Established? || e.block.state.FinWait1?)
              && (e.block.state.Established? ==> !e.seg.flags.fin && (e.block.pending0.fin ==> b.pending1.fin))
  {
  }

  lemma {:induction false} OthersSend(b: Block, n: nat)
    requires Settled(b) && !b.state.Established?
    ensures EmitPending(b, n).Sent? ==>
              var e := EmitPending(b, n);
              && e.seg.dataLen == 0 && !e.block.state.Established?
              && (ClosedFirst(e.block.state) <==> ClosedFirst(b.state))
  {
  }

  /** A segment with no payload goes out and none of the user's bytes with it. */
  lemma {:induction false} EmptySent(s: Session, b: Block, tx: seq<byte>)
    requires Inv(s) && Settled(b) && !b.state.Established? && tx <= s.conn.tx
    requires ClosedFirst(b.state) ==> s.wrote == s.sent && tx == []
    ensures Inv(s.(conn := s.conn.(scb := b, tx := tx), sent := s.sent + []))
  {
    assert s.sent + [] == s.sent;
  }

  lemma {:induction false} DataSent(s: Session, b: Block, k: nat)
    requires Inv(s) && s.conn.scb.state.Established? && k <= |s.conn.tx|
    requires Settled(b) && b.state.Established? && !b.pending0.fin && !b.pending1.fin
    ensures Inv(s.(conn := s.conn.(scb := b, tx := s.conn.tx[k..]), sent := s.sent + s.conn.tx[..k]))
  {
    assert s.conn.tx[..k] + s.conn.tx[k..] == s.conn.tx;
    assert s.wrote == (s.sent + s.conn.tx[..k]) + s.conn.tx[k..];
  }

  lemma {:induction false} EstablishedSendKeeps(s: Session, room: nat)
    requires Inv(s) && s.conn.scb.state.Established? && Transmitted(s, SendTx(s.conn, room)).Going?
    ensures Inv(Transmitted(s, SendTx(s.conn, room)).s)
  {
    var c := s.conn;
    var n := Min(|c.tx|, room);
    var b := SetRecvWindow(c.scb, c.Free());
    EmitInSequence(b, n);
    EstablishedSends(b, n);
    var e := EmitPending(b, n);
    assert Inv(s.(conn := c.(scb := b)));
    if e.Sent? {
      var k := if n == 0 then 0 else e.seg.dataLen;
      if e.block.state.Established? {
        DataSent(s, e.block, k);
        CheckKeeps(s.(conn := c.(scb := e.block, tx := c.tx[k..]), sent := s.sent + c.tx[..k]));
      } else {
        EmptySent(s, e.block, c.tx);
      }
    }
  }

  lemma {:induction false} OtherSendKeeps(s: Session, room: nat)
    requires Inv(s) && !s.conn.scb.state.Established? && Transmitted(s, SendTx(s.conn, room)).Going?
    ensures Inv(Transmitted(s, SendTx(s.conn, room)).s)
    ensures Transmitted(s, SendTx(s.conn, room)).s.sent == s.sent
    ensures !Transmitted(s, SendTx(s.conn, room)).s.conn.scb.state.Established?
  {
    var c := s.conn;
    var n := Min(|c.tx|, room);
    var b := SetRecvWindow(c.scb, c.Free());
    EmitInSequence(b, n);
    OthersSend(b, n);
    var e := EmitPending(b, n);
    if e.Sent? {
      EmptySent(s, e.block, if n == 0 then c.tx else AfterRead(c.tx, c.txCap, 0));
    }
  }

  /** What a segment may do to the state and to a pending FIN. */
  predicate Moves(b: Block, b': Block) {
    && (if b.state.Established? then
          b'.state.CloseWait? ||
          (b'.state.Established? && b'.pending1 == b.pending1 && (b'.pending0.fin ==> b.pending0.fin))
        else !b'.state.Established?)
    && (ClosedFirst(b.state) <==> ClosedFirst(b'.state))
  }

  lemma {:induction false} HandleMoves(b: Block, seg: Segment)
    requires Settled(b) && !b.state.IsClosed() && NoSynRst(seg.flags)
    ensures var h := Handle(b, seg).block;
            && (b.state.Established? ==> h.state.CloseWait? || h == b)
            && (!b.state.Established? ==> !h.state.Established?)
            && (ClosedFirst(b.state) <==> ClosedFirst(h.state))
    ensures !Handle(b, seg).pending.fin
  {
    match b.state {
      case Established =>
      case FinWait1 =>
      case FinWait2 =>
      case Closing =>
      case CloseWait =>
      case LastAck =>
    }
  }

  lemma {:induction false} ValidateMoves(b: Block, seg: Segment)
    requires Settled(b) && !b.state.IsClosed() && NoSynRst(seg.flags)
    ensures var v := ValidateIncoming(b, seg).block;
            && v.state == b.state && v.pending1 == b.pending1 && (v.pending0.fin ==> b.pending0.fin)
  {
  }

  lemma {:induction false} RecvMoves(b: Block, seg: Segment)
    requires Settled(b) && !b.state.IsClosed() && NoSynRst(seg.flags)
    ensures var r := Control.Recv(b, seg).block;
            Settled(r) && Moves(b, r)
  {
    RecvInSequence(b, seg);
    ValidateInSequence(b, seg);
    ValidateMoves(b, seg);
    if ValidateIncoming(b, seg).err == NoError {
      HandleMoves(b, seg);
    }
  }

  lemma {:induction false} Received(s: Session, b: Block, rx: seq<byte>)
    requires Inv(s) && Settled(b) && |rx| <= s.conn.rxCap && !s.conn.scb.state.IsClosed() && Moves(s.conn.scb, b)
    ensures Inv(s.(conn := s.conn.(scb := b, rx := rx)))
  {
  }

  /** A block that moves as segments may move it keeps the session in order, whatever becomes of the payload. */
  lemma {:induction false} FinishKeeps(s: Session, r: Result, seg: Segment, payload: seq<byte>)
    requires Inv(s) && !s.conn.scb.state.IsClosed() && Settled(r.block) && Moves(s.conn.scb, r.block)
    ensures var c := FinishRecv(s.conn, r, seg, payload).0;
            Inv(s.(conn := c)) && (!s.conn.scb.state.Established? ==> !c.scb.state.Established?)
  {
    var c := s.conn;
    var rx := if seg.dataLen > 0 && |payload| <= c.rxCap - |c.rx| then c.rx + payload else c.rx;
    Received(s, r.block, c.rx);
    Received(s, r.block, rx);
    CheckKeeps(s.(conn := c.(scb := r.block, rx := rx)));
  }

  lemma {:induction false} RecvKeeps(s: Session, seg: Segment, payload: seq<byte>)
    requires Inv(s) && NoSynRst(seg.flags)
    ensures Inv(Took(s, seg, payload))
    ensures !s.conn.scb.state.Established? ==> !RecvRx(s.conn, seg, payload).0.scb.state.Established?
  {
    if !s.conn.scb.state.IsClosed() {
      RecvMoves(s.conn.scb, seg);
      FinishKeeps(s, Control.Recv(s.conn.scb, seg), seg, payload);
    }
  }

  lemma {:induction false} StepKeeps(s: Session, e: UserEvent)
    requires Inv(s) && Allowed(e) && Next(s, e).Going?
    ensures Inv(Next(s, e).s)
  {
    match e {
      case Write(b) =>
      case Read(n) =>
      case CloseCall =>
      case SendCall(room) =>
        if s.conn.scb.state.Established? {
          EstablishedSendKeeps(s, room);
        } else {
          OtherSendKeeps(s, room);
        }
      case RecvCall(seg, payload) => RecvKeeps(s, seg, payload);
    }
  }

  lemma {:induction false} RunKeeps(s: Session, events: seq<UserEvent>, s': Session)
    requires Inv(s) && Runs(s, events, s')
    ensures Inv(s')
    decreases |events|
  {
    if events != [] {
      StepKeeps(s, events[0]);
      RunKeeps(Next(s, events[0]).s, events[1..], s');
    }
  }

  // ---------------------------------------------------------------------------------------------
  // The results

  /** An established connection that nobody has closed, with everything written either sent or buffered. */
  predicate Begun(s: Session) {
    && s.conn.Valid() && Settled(s.conn.scb) && s.conn.scb.state.Established? && !s.conn.closing
    && !s.conn.scb.pending0.fin && !s.conn.scb.pending1.fin
    && s.wrote == s.sent + s.conn.tx
  }

  /** Close drains: whatever the peer sends and whenever the user writes, reads and closes, the payloads sent are
      the first bytes written; while established, the rest is buffered; and if this side closes first, its FIN
      follows the last byte written. */
  lemma {:induction false} CloseDrains(s: Session, events: seq<UserEvent>, s': Session)
    requires Begun(s) && Runs(s, events, s')
    ensures s'.sent <= s'.wrote
    ensures s'.conn.scb.state.Established? ==> s'.wrote == s'.sent + s'.conn.tx
    ensures ClosedFirst(s'.conn.scb.state) ==> s'.wrote == s'.sent
  {
    RunKeeps(s, events, s');
  }

  /** Nothing is written or sent once the state is no longer Established. */
  lemma {:induction false} Frozen(s: Session, events: seq<UserEvent>, s': Session)
    requires Inv(s) && !s.conn.scb.state.Established? && Runs(s, events, s')
    ensures s'.sent == s.sent && s'.wrote == s.wrote
    decreases |events|
  {
    if events != [] {
      StepKeeps(s, events[0]);
      match events[0] {
        case Write(b) =>
        case Read(n) =>
        case CloseCall =>
        case SendCall(room) => OtherSendKeeps(s, room);
        case RecvCall(seg, payload) => RecvKeeps(s, seg, payload);
      }
      Frozen(Next(s, events[0]).s, events[1..], s');
    }
  }

  /** If the peer closes first, the bytes that wait to be sent when its FIN is accepted are never sent. */
  lemma {:induction false} PeerCloseStrands(s: Session, seg: Segment, payload: seq<byte>, events: seq<UserEvent>,
                                            s': Session)
    requires Inv(s) && s.conn.scb.state.Established? && NoSynRst(seg.flags) && seg.flags.fin
    requires RecvRx(s.conn, seg, payload).1.Delivered?
    requires Runs(Took(s, seg, payload), events, s')
    ensures s'.wrote == s'.sent + s.conn.tx
  {
    RecvKeeps(s, seg, payload);
    Frozen(Took(s, seg, payload), events, s');
  }

  // ---------------------------------------------------------------------------------------------
  // The receiving half

  /** Every byte accepted has been read or is buffered. */
  predicate Accounted(s: Session) {
    s.conn.Valid() && s.accepted == s.read + s.conn.rx
  }

  predicate NonEmptyReads(events: seq<UserEvent>) {
    forall i :: 0 <= i < |events| && events[i].Read? ==> events[i].n > 0
  }

  lemma {:induction false} SendLeavesRx(s: Session, room: nat)
    requires s.conn.Valid()
    ensures SendTx(s.conn, room).0.rx == s.conn.rx && SendTx(s.conn, room).0.rxCap == s.conn.rxCap
    ensures SendTx(s.conn, room).0.Valid()
    ensures SendTx(s.conn, room).0.closing == s.conn.closing
  {
  }

  lemma {:induction false} TookAccounted(s: Session, seg: Segment, payload: seq<byte>)
    requires Accounted(s)
    ensures Accounted(Took(s, seg, payload)) && s.conn.rx <= Took(s, seg, payload).conn.rx
    ensures Took(s, seg, payload).conn.closing == s.conn.closing && Took(s, seg, payload).read == s.read
  {
    var r := RecvRx(s.conn, seg, payload);
    if r.1.Delivered? && seg.dataLen > 0 {
      assert r.0.rx == s.conn.rx + payload;
    } else {
      assert r.0.rx == s.conn.rx;
    }
  }

  lemma {:induction false} ReadAccounted(s: Session, n: nat)
    requires Accounted(s) && n > 0
    ensures Accounted(WasRead(s, ReadRx(s.conn, n)))
  {
    ReadKeepsBytes(s.conn, n);
    assert s.read + (ReadRx(s.conn, n).1 + ReadRx(s.conn, n).0.rx) == s.accepted;
  }

  lemma {:induction false} SendAccounted(s: Session, r: (Conn, SendEvent), room: nat)
    requires Accounted(s) && r == SendTx(s.conn, room) && Transmitted(s, r).Going?
    ensures var t := Transmitted(s, r).s;
            Accounted(t) && t.read == s.read && t.conn.rx == s.conn.rx && t.accepted == s.accepted
  {
    SendLeavesRx(s, room);
  }

  lemma {:induction false} StepAccounted(s: Session, e: UserEvent)
    requires Accounted(s) && Next(s, e).Going? && (e.Read? ==> e.n > 0)
    ensures Accounted(Next(s, e).s)
    ensures !PipeOpen(s.conn) ==> Next(s, e).s.read == s.read && s.conn.rx <= Next(s, e).s.conn.rx
    ensures s.accepted <= Next(s, e).s.accepted
  {
    match e {
      case Write(b) =>
      case Read(n) =>
        if PipeOpen(s.conn) {
          ReadAccounted(s, n);
        }
      case CloseCall =>
      case SendCall(room) => SendAccounted(s, SendTx(s.conn, room), room);
      case RecvCall(seg, payload) => TookAccounted(s, seg, payload);
    }
  }

  /** Closing for the user is final. */
  lemma {:induction false} StaysShut(s: Session, e: UserEvent)
    requires Inv(s) && !PipeOpen(s.conn) && Allowed(e) && Next(s, e).Going?
    ensures !PipeOpen(Next(s, e).s.conn)
  {
    match e {
      case Write(b) =>
      case Read(n) =>
      case CloseCall =>
      case SendCall(room) =>
        SendLeavesRx(s, room);
        StepKeeps(s, e);
        if !s.conn.scb.state.Established? {
          OtherSendKeeps(s, room);
        }
      case RecvCall(seg, payload) =>
        StepKeeps(s, e);
        RecvKeeps(s, seg, payload);
        ClosingStays(s, seg, payload);
    }
  }

  lemma {:induction false} ClosingStays(s: Session, seg: Segment, payload: seq<byte>)
    requires s.conn.Valid()
    ensures RecvRx(s.conn, seg, payload).0.closing == s.conn.closing
  {
  }

  /** Once the user may no longer read, what is buffered stays buffered. */
  lemma {:induction false} NothingMoreRead(s: Session, events: seq<UserEvent>, s': Session)
    requires Inv(s) && Accounted(s) && !PipeOpen(s.conn) && Runs(s, events, s') && NonEmptyReads(events)
    ensures Accounted(s') && s'.read == s.read && s.conn.rx <= s'.conn.rx && s.accepted <= s'.accepted
    decreases |events|
  {
    if events != [] {
      StepKeeps(s, events[0]);
      StepAccounted(s, events[0]);
      StaysShut(s, events[0]);
      NothingMoreRead(Next(s, events[0]).s, events[1..], s');
    }
  }

  lemma {:induction false} RunAccounted(s: Session, events: seq<UserEvent>, s': Session)
    requires Accounted(s) && Runs(s, events, s') && NonEmptyReads(events)
    ensures Accounted(s')
    decreases |events|
  {
    if events != [] {
      StepAccounted(s, events[0]);
      RunAccounted(Next(s, events[0]).s, events[1..], s');
    }
  }

  /** If the peer closes first, the bytes that are buffered once its FIN has been taken can never be read: in every
      continuation everything accepted has been read if and only if that buffer was empty and nothing was accepted
      since. */
  lemma {:induction false} PeerCloseHidesBytes(s: Session, seg: Segment, payload: seq<byte>, events: seq<UserEvent>,
                                               s': Session)
    requires Inv(s) && Accounted(s) && s.conn.scb.state.Established? && NoSynRst(seg.flags) && seg.flags.fin
    requires RecvRx(s.conn, seg, payload).1.Delivered?
    requires Runs(Took(s, seg, payload), events, s') && NonEmptyReads(events)
    ensures s'.read == s.read && s'.accepted == s'.read + s'.conn.rx
    ensures s'.read == s'.accepted <==>
              Took(s, seg, payload).conn.rx == [] && s'.accepted == Took(s, seg, payload).accepted
  {
    var t := Took(s, seg, payload);
    RecvKeeps(s, seg, payload);
    TookAccounted(s, seg, payload);
    FinCloses(s, seg, payload);
    NothingMoreRead(t, events, s');
    assert s'.read == s'.accepted <==> s'.conn.rx == [];
  }

  lemma {:induction false} FinCloses(s: Session, seg: Segment, payload: seq<byte>)
    requires Inv(s) && s.conn.scb.state.Established? && NoSynRst(seg.flags) && seg.flags.fin
    requires RecvRx(s.conn, seg, payload).1.Delivered?
    ensures !PipeOpen(Took(s, seg, payload).conn)
  {
  }

  // ---------------------------------------------------------------------------------------------
  // Octets that are acknowledged and thrown away

  /** The segment is counted by the control block and its payload does not fit the ring. */
  predicate Overrun(s: Session, e: UserEvent)
    requires s.conn.Valid()
  {
    e.RecvCall? && RecvRx(s.conn, e.seg, e.payload).1.RxFull?
  }

  /** Exactly which segments overrun the ring: those the control block takes at its next number, with more payload
      than there is room. RCV.WND need not be the room there is, because receiving does not reduce it. */
  lemma {:induction false} OverrunIff(s: Session, seg: Segment, payload: seq<byte>)
    requires s.conn.Valid()
    ensures RecvRx(s.conn, seg, payload).1.RxFull? <==>
              && !s.conn.scb.state.IsClosed() && !IncomingIsKeepalive(s.conn.scb, seg)
              && Control.Recv(s.conn.scb, seg).err == NoError && seg.dataLen > 0 && |payload| > s.conn.Free()
  {
  }

  /** While RCV.WND is no more than the room there is, nothing overruns the ring. */
  lemma {:induction false} WindowPreventsOverrun(s: Session, seg: Segment, payload: seq<byte>)
    requires Inv(s) && NoSynRst(seg.flags) && |payload| == seg.dataLen <= MAX_WINDOW
    requires s.conn.scb.rcv.wnd <= s.conn.Free() && s.conn.scb.rcv.wnd <= MAX_WINDOW
    ensures !RecvRx(s.conn, seg, payload).1.RxFull?
  {
    var b := s.conn.scb;
    if !b.state.IsClosed() && Control.Recv(b, seg).err == NoError && seg.dataLen > 0 {
      ValidateInSequence(b, seg);
      assert CheckIncoming(b, seg) == NoError;
      TakenFitsWindow(b, seg);
    }
  }

  lemma {:induction false} TakenFitsWindow(b: Block, seg: Segment)
    requires CheckIncoming(b, seg) == NoError && !seg.flags.syn
    requires 0 < seg.dataLen <= MAX_WINDOW && b.rcv.wnd <= MAX_WINDOW
    ensures seg.dataLen <= b.rcv.wnd
  {
  }

  /** Whether some segment of the run overran the ring. */
  predicate Overruns(s: Session, events: seq<UserEvent>)
    decreases |events|
  {
    && events != [] && s.conn.Valid()
    && (Overrun(s, events[0]) ||
        (Next(s, events[0]).Going? && Overruns(Next(s, events[0]).s, events[1..])))
  }

  lemma {:induction false} StepCounted(s: Session, e: UserEvent)
    requires s.conn.Valid() && Next(s, e).Going?
    ensures var t := Next(s, e).s;
            |t.counted| - |t.accepted| >= |s.counted| - |s.accepted|
            && (!Overrun(s, e) && s.counted == s.accepted ==> t.counted == t.accepted)
            && (Overrun(s, e) ==> |t.counted| - |t.accepted| > |s.counted| - |s.accepted|)
  {
  }

  /** In every run with non-empty reads, against any peer: every byte counted in RCV.NXT has been read or is in the
      ring if and only if no segment overran the ring. */
  lemma {:induction false} CountedIff(s: Session, events: seq<UserEvent>, s': Session)
    requires Accounted(s) && |s.counted| >= |s.accepted| && Runs(s, events, s') && NonEmptyReads(events)
    ensures |s'.counted| >= |s'.accepted|
    ensures s.counted == s.accepted ==> (s'.counted == s'.read + s'.conn.rx <==> !Overruns(s, events))
    ensures |s.counted| > |s.accepted| ==> |s'.counted| > |s'.read + s'.conn.rx|
    decreases |events|
  {
    RunAccounted(s, events, s');
    if events != [] {
      StepCounted(s, events[0]);
      StepAccounted(s, events[0]);
      CountedIff(Next(s, events[0]).s, events[1..], s');
    }
  }

  /** A segment that fills a window which the user's bytes have already filled: the block counts and will acknowledge
      it, and the connection throws it away. */
  lemma {:induction false} StaleWindowOverruns() returns (s: Session, seg: Segment)
    ensures Inv(s) && Accounted(s) && s.counted == s.accepted && NoSynRst(seg.flags) && seg.dataLen == 1
    ensures var t := Took(s, seg, [7]);
            && Overrun(s, RecvCall(seg, [7])) && t.conn.scb.rcv.nxt == SeqNum.Add(s.conn.scb.rcv.nxt, 1)
            && t.conn.scb.pending0.ack && t.conn.rx == s.conn.rx
  {
    var b := Block(SendSpace(0, 0, 0, 1), RecvSpace(0, 1, 1), 0, NO_FLAGS, NO_FLAGS, Established, false);
    s := Session(Conn(b, [], 1, [5], 1, false), [], [], [5], [5], []);
    seg := Segment(1, 0, 1, 1, ACK);
    assert NO_FLAGS.Or(ACK) == ACK;
    assert Control.Recv(b, seg) == Result(b.(pending0 := ACK, rcv := RecvSpace(0, 2, 1)), NoError);
  }
}
