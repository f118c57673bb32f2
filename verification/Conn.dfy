/** The TCP connection: a control block coupled to a transmit and a receive ring (stacks/tcpconn.go),
    without timers and deadlines, once its remote address is known. */
module Conns {
  import opened SeqNum
  import opened Segments
  import opened Control
  import opened Rings

  /** The connection as a value: the rings are the queues they implement. */
  datatype Conn = Conn(scb: Block, tx: seq<byte>, txCap: nat, rx: seq<byte>, rxCap: nat, closing: bool)
  {
    predicate Valid() {
      |tx| <= txCap && |rx| <= rxCap < MODULUS
    }

    function Free(): Size
      requires Valid()
    {
      rxCap - |rx|
    }
  }

  /** The user may read and write: neither side has begun to close. */
  predicate PipeOpen(c: Conn) {
    !c.closing && !c.scb.state.IsClosed() && !c.scb.state.IsClosing()
  }

  /** The SYN of an active opener, sent first and whenever it is resent. */
  function SynSegment(b: Block): Segment {
    Segment(b.snd.iss, 0, 0, b.rcv.wnd, SYN)
  }

  /** Opening empties the rings and, for an active opener, passes the SYN to the control block. */
  function OpenConn(c: Conn, iss: Value, state: State): (Conn, Err)
    requires c.Valid()
  {
    var r := Open(c.scb, iss, c.rxCap, state);
    var c1 := c.(scb := r.block, tx := [], rx := []);
    if r.err != NoError then (c, r.err)
    else if state.SynSent? then
      var s := Control.Send(r.block, SynSegment(r.block));
      (c1.(scb := s.block), s.err)
    else (c1, NoError)
  }

  /** Close is delayed while bytes wait to be sent. */
  function CloseConn(c: Conn): (Conn, Err) {
    var r := Close(c.scb);
    if c.tx != [] then (c.(closing := true), NoError)
    else if r.err == NoError then (c.(scb := r.block, closing := true), NoError)
    else (c.(closing := c.closing || c.scb.state.IsClosing()), r.err)
  }

  /** A delayed close goes ahead once everything buffered has been sent. */
  function StateCheck(c: Conn): Conn {
    if c.closing && c.tx == [] && c.scb.state.Established? then c.(scb := Close(c.scb).block) else c
  }

  /** The state that the user sees: closing as soon as Close has been called. */
  function UserState(c: Conn): State {
    if c.closing && !c.scb.state.IsClosing() then FinWait1 else c.scb.state
  }

  /** What the check tells the stack: to call again, that the connection is over, or nothing. */
  datatype Report = NoReport | FlagPending | EndOfConn

  /** The report on connection c, when it has been idle for too long or not. */
  function CheckReport(c: Conn, idle: bool): Report {
    if c.closing && idle && !(c.tx == [] && c.scb.state.Established?) then EndOfConn
    else if StateCheck(c).scb.pending0 != NO_FLAGS then FlagPending
    else if UserState(c).IsClosed() then EndOfConn
    else NoReport
  }

  /** The peer of a connection, once it is known. */
  datatype Remote = NoRemote | Remote(mac: seq<byte>, addr: seq<byte>, port: nat)

  /** One attempt of Write: all of b is buffered, or none of it. */
  function WriteTx(c: Conn, b: seq<byte>): Conn
    requires c.Valid()
  {
    if |b| > c.txCap - |c.tx| then c else c.(tx := c.tx + b)
  }

  /** A ring's queue after a read of n bytes: an empty read of a full ring empties it. */
  function AfterRead(q: seq<byte>, cap: nat, n: nat): seq<byte>
    requires n <= |q|
  {
    if n == 0 && |q| == cap then [] else q[n..]
  }

  /** Up to n buffered bytes, and the connection without them. */
  function ReadRx(c: Conn, n: nat): (Conn, seq<byte>) {
    var k := Min(n, |c.rx|);
    (c.(rx := AfterRead(c.rx, c.rxCap, k)), c.rx[..k])
  }

  /** A read keeps every byte it does not return, except into an empty destination from a full ring. */
  lemma ReadKeepsBytes(c: Conn, n: nat)
    requires c.Valid()
    ensures ReadRx(c, n).1 + ReadRx(c, n).0.rx == c.rx <==> n > 0 || c.rx == [] || |c.rx| < c.rxCap
  {
    var k := Min(n, |c.rx|);
    assert c.rx[..k] + c.rx[k..] == c.rx;
    if n == 0 && c.rx != [] && |c.rx| == c.rxCap {
      assert |ReadRx(c, n).1 + ReadRx(c, n).0.rx| == 0;
    }
  }

  datatype SendEvent = Yielded | Emitted(seg: Segment, payload: seq<byte>) | SendFailed(err: Err) | SendPanic

  /** What is left of a send once the control block has offered and sent a segment. */
  function FinishSend(c: Conn, available: nat, e: Emission): (Conn, SendEvent) {
    match e
    case Idle(b) => (StateCheck(c.(scb := b)), Yielded)
    case Fault(b, seg, err) => (c.(scb := b), SendFailed(err))
    case Crash => (c, SendPanic)
    case Sent(b, seg) =>
      if available == 0 then (StateCheck(c.(scb := b)), Emitted(seg, []))
      else if seg.dataLen > |c.tx| then (c, SendPanic)
      else (StateCheck(c.(scb := b, tx := AfterRead(c.tx, c.txCap, seg.dataLen))),
            Emitted(seg, c.tx[..seg.dataLen]))
  }

  /** The connection at the end of a send, before the check. */
  function Handed(c: Conn, available: nat, e: Emission): Conn {
    match e
    case Idle(b) => c.(scb := b)
    case Fault(b, _, _) => c.(scb := b)
    case Crash => c
    case Sent(b, seg) =>
      if available == 0 || seg.dataLen > |c.tx| then c.(scb := b)
      else c.(scb := b, tx := AfterRead(c.tx, c.txCap, seg.dataLen))
  }

  /** What a send reports to the stack. */
  function SendReport(c: Conn, room: nat, synDue: bool, idle: bool): Report
    requires c.Valid()
  {
    if c.scb.state.SynSent? then if synDue then NoReport else FlagPending
    else
      var available := Min(|c.tx|, room);
      var e := EmitPending(SetRecvWindow(c.scb, c.Free()), available);
      if FinishSend(c, available, e).1.Yielded? || FinishSend(c, available, e).1.Emitted? then
        CheckReport(Handed(c, available, e), idle)
      else NoReport
  }

  /** The emission brings the block with it. */
  lemma {:induction false} FinishIgnoresBlock(c: Conn, b: Block, available: nat, e: Emission)
    ensures e.Crash? || Handed(c.(scb := b), available, e) == Handed(c, available, e)
    ensures FinishSend(c.(scb := b), available, e).1 == FinishSend(c, available, e).1
    ensures !FinishSend(c, available, e).1.SendPanic? ==>
              FinishSend(c.(scb := b), available, e) == FinishSend(c, available, e)
  {
  }

  /** Sending into a response with room for the given number of payload bytes; the free receive
      space is advertised as the window. */
  function SendTx(c: Conn, room: nat): (Conn, SendEvent)
    requires c.Valid()
  {
    var available := Min(|c.tx|, room);
    FinishSend(c, available, EmitPending(SetRecvWindow(c.scb, c.Free()), available))
  }

  /** While an active opener waits for its answer it sends only its SYN, when that is due again. */
  function SendNow(c: Conn, room: nat, synDue: bool): (Conn, SendEvent)
    requires c.Valid()
  {
    if c.scb.state.SynSent? then (c, if synDue then Emitted(SynSegment(c.scb), []) else Yielded)
    else SendTx(c, room)
  }

  datatype RecvEvent = Delivered | NotAdmitted | Aborted | RxFull | RecvPanic

  function RecvRx(c: Conn, seg: Segment, payload: seq<byte>): (Conn, RecvEvent)
    requires c.Valid()
  {
    if c.scb.state.IsClosed() then (c, Aborted)
    else if IncomingIsKeepalive(c.scb, seg) then (c, NotAdmitted)
    else FinishRecv(c, Recv(c.scb, seg), seg, payload)
  }

  /** The connection at the end of a receive, before the check. */
  function Admitted(c: Conn, seg: Segment, payload: seq<byte>): Conn {
    var c1 := c.(scb := Recv(c.scb, seg).block);
    if seg.dataLen > 0 then c1.(rx := c.rx + payload) else c1
  }

  /** What a receive reports to the stack. */
  function RecvReport(c: Conn, seg: Segment, payload: seq<byte>, idle: bool): Report
    requires c.Valid()
  {
    match RecvRx(c, seg, payload).1
    case Delivered => CheckReport(Admitted(c, seg, payload), idle)
    case Aborted => EndOfConn
    case _ => NoReport
  }

  /** What is left of a receive once the control block has seen the segment. */
  function FinishRecv(c: Conn, r: Result, seg: Segment, payload: seq<byte>): (Conn, RecvEvent)
    requires c.Valid()
  {
    var c1 := c.(scb := r.block);
    if r.err == PanicUnexpectedState then (c, RecvPanic)
    else if r.err != NoError then (c1, if r.block.state.Closed? then Aborted else NotAdmitted)
    else if seg.dataLen > 0 && |payload| > c.rxCap - |c.rx| then (c1, RxFull)
    else (StateCheck(if seg.dataLen > 0 then c1.(rx := c.rx + payload) else c1), Delivered)
  }
}

/** The connection in the form the program has: an object that owns a control block and two rings. */
module TcpConns {
  import opened SeqNum
  import opened Segments
  import opened Control
  import opened ControlBlocks
  import opened Rings
  import opened Conns

  class TCPConn {
    const scb: ControlBlock
    const tx: Ring
    const rx: Ring
    var closing: bool
    var remote: Remote

    ghost predicate Valid()
      reads this, tx, rx
    {
      && tx.Valid() && rx.Valid() && tx != rx && tx.buf != rx.buf
      && rx.buf.Length < MODULUS
    }

    /** The value of this connection. */
    ghost function View(): (c: Conn)
      requires Valid()
      reads this, scb, tx, tx.buf, rx, rx.buf
    {
      Conn(scb.View(), tx.Contents(), tx.buf.Length, rx.Contents(), rx.buf.Length, closing)
    }

    constructor (txSize: nat, rxSize: nat)
      requires rxSize < MODULUS
      ensures Valid() && View() == Conn(ZERO_BLOCK, [], txSize, [], rxSize, false) && remote == NoRemote
    {
      scb := new ControlBlock();
      tx := new Ring(txSize);
      rx := new Ring(rxSize);
      closing := false;
      remote := NoRemote;
    }

    /** The user's state. */
    method CurrentState() returns (state: State)
      requires Valid()
      ensures state == UserState(View())
    {
      state := scb.state;
      if closing && !state.IsClosing() {
        state := FinWait1;
      }
    }

    /** Goes ahead with a delayed close; idle says whether nothing was sent for too long. */
    method StateCheckNow(idle: bool) returns (report: Report)
      requires Valid()
      modifies scb
      ensures Valid() && View() == StateCheck(old(View())) && report == CheckReport(old(View()), idle)
    {
      var state := CurrentState();
      var buffered := tx.Buffered();
      if closing {
        if buffered == 0 && scb.state == Established {
          var err := scb.Close();
        } else if idle {
          return EndOfConn;
        }
      }
      if scb.pending0 != NO_FLAGS {
        return FlagPending;
      } else if state.IsClosed() {
        return EndOfConn;
      }
      return NoReport;
    }

    method Open(state: State, iss: Value, peer: Remote) returns (err: Err)
      requires Valid()
      modifies this, scb, tx, rx
      ensures Valid() && (View(), err) == OpenConn(old(View()), iss, state)
      ensures remote == if Control.Open(old(View()).scb, iss, old(View()).rxCap, state).err == NoError then peer
                        else old(remote)
    {
      err := scb.Open(iss, rx.buf.Length, state);
      if err != NoError {
        return;
      }
      remote := peer;
      rx.Reset();
      tx.Reset();
      if state == SynSent {
        err := scb.Send(SynSegment(scb.View()));
      }
    }

    method Close() returns (err: Err)
      requires Valid()
      modifies this, scb
      ensures Valid() && (View(), err) == CloseConn(old(View()))
    {
      err := NoError;
      var toSend := tx.Buffered();
      if toSend == 0 {
        err := scb.Close();
        if err != NoError {
          if scb.state.IsClosing() {
            closing := true;
          }
          return;
        }
      }
      closing := true;
    }

    /** One attempt of the loop in Write. */
    method TryWrite(b: seq<byte>) returns (n: nat, open: bool)
      requires Valid()
      modifies this, tx, tx.buf
      ensures Valid() && open == PipeOpen(old(View()))
      ensures View() == if open then WriteTx(old(View()), b) else old(View())
      ensures n == |View().tx| - |old(View()).tx|
    {
      n := 0;
      open := !closing && !scb.state.IsClosed() && !scb.state.IsClosing();
      if open {
        var full;
        n, full := tx.Write(b);
      }
    }

    /** Read, where it does not wait: it waits while nothing is buffered and the state is Established. */
    method TryRead(b: array<byte>) returns (n: nat, open: bool, eof: bool)
      requires Valid() && b != rx.buf && b != tx.buf
      modifies this, rx, b
      ensures Valid() && n <= b.Length && open == PipeOpen(old(View()))
      ensures open ==> View() == ReadRx(old(View()), b.Length).0 && b[..n] == ReadRx(old(View()), b.Length).1
      ensures !open ==> View() == old(View()) && n == 0
      ensures eof <==> open && old(View()).rx == []
    {
      n, eof := 0, false;
      open := !closing && !scb.state.IsClosed() && !scb.state.IsClosing();
      if open {
        n, eof := rx.Read(b);
      }
    }

    /** Offers a segment and, if there is one, sends it. */
    method Emit(available: nat) returns (offer: Offer, err: Err, ghost e: Emission)
      requires Valid()
      modifies scb
      ensures Valid() && e == EmitPending(old(scb.View()), available) && Reports(offer, err, e)
    {
      err := NoError;
      offer := scb.PendingSegment(available);
      if offer.Offered? {
        err := scb.Send(offer.seg);
      }
      e := EmitPending(old(scb.View()), available);
    }

    /** What Emit returns and leaves behind is the emission e. */
    ghost predicate Reports(offer: Offer, err: Err, e: Emission)
      reads scb
    {
      match e
      case Idle(b) => offer.NoSegment? && scb.View() == b
      case Crash => offer.Panic?
      case Sent(b, seg) => offer == Offered(seg) && err == NoError && scb.View() == b
      case Fault(b, seg, err') => offer == Offered(seg) && err == err' != NoError && scb.View() == b
    }

    /** Moves the payload of a segment out of the transmit ring. */
    method TakePayload(n: nat) returns (payload: seq<byte>)
      requires Valid()
      modifies tx
      ensures Valid() && |payload| <= n
      ensures n <= |old(tx.Contents())| ==>
                && payload == old(tx.Contents())[..n]
                && tx.Contents() == AfterRead(old(tx.Contents()), tx.buf.Length, n)
      ensures n > |old(tx.Contents())| ==> |payload| < n
    {
      var dst := new byte[n];
      var k, eof := tx.Read(dst);
      payload := dst[..k];
    }

    /** A connection sends nothing before it knows its peer. */
    method Send(room: nat, synDue: bool, idle: bool) returns (event: SendEvent, report: Report)
      requires Valid()
      modifies this, scb, tx
      ensures Valid() && remote == old(remote)
      ensures old(remote).NoRemote? ==> event == Yielded && View() == old(View())
      ensures old(remote).Remote? ==> event == SendNow(old(View()), room, synDue).1
      ensures old(remote).Remote? && !event.SendPanic? ==> View() == SendNow(old(View()), room, synDue).0
      ensures report == if old(remote).Remote? then SendReport(old(View()), room, synDue, idle) else NoReport
    {
      if remote.NoRemote? {
        return Yielded, NoReport;
      }
      if scb.state == SynSent {
        if synDue {
          return Emitted(SynSegment(scb.View()), []), NoReport;
        }
        return Yielded, FlagPending;
      }
      event, report := SendPending(room, idle);
    }

    method SendPending(room: nat, idle: bool) returns (event: SendEvent, report: Report)
      requires Valid()
      modifies scb, tx
      ensures Valid() && event == SendTx(old(View()), room).1
      ensures !event.SendPanic? ==> View() == SendTx(old(View()), room).0
      ensures !old(View()).scb.state.SynSent? ==> report == SendReport(old(View()), room, false, idle)
    {
      ghost var c := View();
      var free := rx.Free();
      assert free == c.Free();
      scb.SetRecvWindow(free);
      var buffered := tx.Buffered();
      var available := Min(buffered, room);
      var offer, err, e := Emit(available);
      ghost var b := scb.View();
      assert View() == c.(scb := b);
      FinishIgnoresBlock(c, b, available, e);
      event, report := Finish(available, offer, err, e, idle);
    }

    method Finish(available: nat, offer: Offer, err: Err, ghost e: Emission, idle: bool)
      returns (event: SendEvent, report: Report)
      requires Valid() && Reports(offer, err, e)
      modifies scb, tx
      ensures Valid() && event == FinishSend(old(View()), available, e).1
      ensures !event.SendPanic? ==> View() == FinishSend(old(View()), available, e).0
      ensures report == if event.Yielded? || event.Emitted? then CheckReport(Handed(old(View()), available, e), idle)
                        else NoReport
    {
      report := NoReport;
      if offer.NoSegment? {
        report := StateCheckNow(idle);
        event := Yielded;
        return;
      } else if offer.Panic? {
        event := SendPanic;
        return;
      } else if err != NoError {
        event := SendFailed(err);
        return;
      }
      var seg := offer.seg;
      var payload := [];
      if available > 0 {
        payload := TakePayload(seg.dataLen);
        if |payload| != seg.dataLen {
          event := SendPanic;
          return;
        }
      }
      report := StateCheckNow(idle);
      event := Emitted(seg, payload);
    }

    /** A segment from a given source. One from another port than the peer's is left alone, and the first SYN tells a
        listening connection who its peer is. */
    method Recv(seg: Segment, payload: seq<byte>, from: Remote, idle: bool) returns (event: RecvEvent, report: Report)
      requires Valid() && from.Remote?
      modifies this, scb, rx, rx.buf
      ensures Valid()
      ensures if && old(View()).scb.state !in {Closed, TimeWait}
                 && old(remote).Remote? && old(remote).port != 0 && old(remote).port != from.port then
                event == NotAdmitted && View() == old(View())
              else event == RecvRx(old(View()), seg, payload).1
                   && (!event.RecvPanic? ==> View() == RecvRx(old(View()), seg, payload).0)
      ensures remote == if event.Delivered? && seg.flags.syn && old(remote).NoRemote? then from else old(remote)
      ensures report == if event.NotAdmitted? then NoReport else RecvReport(old(View()), seg, payload, idle)
    {
      report := NoReport;
      if scb.state.IsClosed() {
        event, report := Aborted, EndOfConn;
        return;
      }
      if remote.Remote? && remote.port != 0 && from.port != remote.port {
        event := NotAdmitted;
        return;
      }
      event, report := Take(seg, payload, idle);
      if event.Delivered? && seg.flags.syn && remote.NoRemote? {
        remote := from;
      }
    }

    method Take(seg: Segment, payload: seq<byte>, idle: bool) returns (event: RecvEvent, report: Report)
      requires Valid() && !scb.state.IsClosed()
      modifies scb, rx, rx.buf
      ensures Valid() && event == RecvRx(old(View()), seg, payload).1
      ensures !event.RecvPanic? ==> View() == RecvRx(old(View()), seg, payload).0
      ensures report == RecvReport(old(View()), seg, payload, idle)
    {
      report := NoReport;
      if IncomingIsKeepalive(scb.View(), seg) {
        event := NotAdmitted;
        return;
      }
      var err := scb.Recv(seg);
      if err == PanicUnexpectedState {
        event := RecvPanic;
        return;
      }
      if err != NoError {
        if scb.state == Closed {
          event, report := Aborted, EndOfConn;
        } else {
          event := NotAdmitted;
        }
        return;
      }
      if seg.dataLen > 0 {
        var n, full := rx.Write(payload);
        if full {
          event := RxFull;
          return;
        }
      }
      report := StateCheckNow(idle);
      event := Delivered;
    }
  }

  const DEFAULT_SIZE: nat := 2048

  /** The sizes of the buffers: zero stands for the default. */
  function SizeOf(size: nat): nat {
    if size == 0 then DEFAULT_SIZE else size
  }

  datatype Made = Made(conn: TCPConn) | MakePanic

  /** Both buffers are cut from one array, whose length is a 16-bit sum: making a connection panics exactly when the
      two sizes together exceed 65535. */
  method NewTCPConn(txSize: nat, rxSize: nat) returns (r: Made)
    requires txSize < 0x1_0000 && rxSize < 0x1_0000
    ensures r.MakePanic? <==> SizeOf(txSize) + SizeOf(rxSize) > 0xffff
    ensures SizeOf(0) == 2048 && (txSize > 0 ==> SizeOf(txSize) == txSize)
    ensures r.Made? ==> fresh(r.conn) && r.conn.Valid() && r.conn.remote == NoRemote
    ensures r.Made? ==> r.conn.View() == Conn(ZERO_BLOCK, [], SizeOf(txSize), [], SizeOf(rxSize), false)
  {
    var tx, rx := SizeOf(txSize), SizeOf(rxSize);
    var length := (rx + tx) % 0x1_0000;
    var end := (tx + rx) % 0x1_0000;
    if tx > length || end < tx || end > length {
      return MakePanic;
    }
    var conn := new TCPConn(tx, end - tx);
    return Made(conn);
  }
}
