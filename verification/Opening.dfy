/** From Open to a fresh pair: the handshake of two connections, one dialing and one listening, ends where the
    end-to-end result begins (stacks/tcpconn.go). */
module Opening {
  import opened SeqNum
  import opened Segments
  import opened Control
  import opened Rings
  import opened Conns
  import opened Pair
  import Stream

  /** A connection nobody has opened; the receive ring has the size of the window it will advertise. */
  function Unopened(txCap: nat, rxCap: nat): Conn {
    Conn(ZERO_BLOCK, [], txCap, [], rxCap, false)
  }

  /** A connection with empty rings around a block. */
  function Around(b: Block, txCap: nat, rxCap: nat): Conn {
    Conn(b, [], txCap, [], rxCap, false)
  }

  lemma {:induction false} BothOpen(c: Config, txA: nat, txB: nat)
    requires c.Valid()
    ensures OpenConn(Unopened(txA, c.wndA), c.issA, SynSent) == (Around(SynSentA(c), txA, c.wndA), NoError)
    ensures OpenConn(Unopened(txB, c.wndB), c.issB, Listen) == (Around(Opened(c).b, txB, c.wndB), NoError)
  {
    var b := Open(ZERO_BLOCK, c.issA, c.wndA, SynSent).block;
    assert SynSegment(b) == Syn(c);
    assert Send(b, Syn(c)) == Result(SynSentA(c), NoError);
  }

  lemma {:induction false} ListenerTakesSyn(c: Config, tx: nat)
    requires c.Valid()
    ensures RecvRx(Around(Opened(c).b, tx, c.wndB), Syn(c), []) == (Around(SynRcvdB(c), tx, c.wndB), Delivered)
  {
    assert Recv(Opened(c).b, Syn(c)) == Result(SynRcvdB(c), NoError);
  }

  lemma {:induction false} ListenerAnswers(c: Config, tx: nat, room: nat, due: bool)
    requires c.Valid()
    ensures SendNow(Around(SynRcvdB(c), tx, c.wndB), room, due)
            == (Around(SynAckSentB(c), tx, c.wndB), Emitted(SynAck(c), []))
  {
    assert SetRecvWindow(SynRcvdB(c), c.wndB) == SynRcvdB(c);
    assert EmitPending(SynRcvdB(c), 0) == Sent(SynAckSentB(c), SynAck(c));
  }

  lemma {:induction false} OpenerCompletes(c: Config, tx: nat, room: nat, due: bool)
    requires c.Valid()
    ensures var a := EstablishedA(SynSentA(c), c);
            && RecvRx(Around(SynSentA(c), tx, c.wndA), SynAck(c), []) == (Around(a, tx, c.wndA), Delivered)
            && SendNow(Around(a, tx, c.wndA), room, due)
               == (Around(a.(pending0 := NO_FLAGS), tx, c.wndA), Emitted(FinalAckSeg(c), []))
  {
    var a := EstablishedA(SynSentA(c), c);
    OpenerTakesSynAck(SynSentA(c), c);
    OpenerAcknowledges(SynSentA(c), c);
    assert SetRecvWindow(a, c.wndA) == a;
  }

  /** The listener once the handshake is complete. */
  function EstablishedB(c: Config): Block {
    SynAckSentB(c).(state := Established, snd := SendSpace(c.issB, Add(c.issB, 1), Add(c.issB, 1), c.wndA))
  }

  lemma {:induction false} ListenerCompletes(c: Config, tx: nat)
    requires c.Valid()
    ensures RecvRx(Around(SynAckSentB(c), tx, c.wndB), FinalAckSeg(c), [])
            == (Around(EstablishedB(c), tx, c.wndB), Delivered)
  {
    ListenerTakesAck(SynAckSentB(c), c);
  }

  /** The three segments of the handshake are sent and delivered between two connections. */
  predicate Exchanged(a0: Conn, b0: Conn, room: nat, a: Conn, b: Conn)
    requires a0.Valid() && b0.Valid()
  {
    var syn := SendNow(a0, room, true);
    && syn.1.Emitted? && syn.0.Valid()
    && var b1 := RecvRx(b0, syn.1.seg, syn.1.payload);
    && b1.1.Delivered? && b1.0.Valid()
    && var synAck := SendNow(b1.0, room, false);
    && synAck.1.Emitted? && synAck.0.Valid()
    && var a1 := RecvRx(syn.0, synAck.1.seg, synAck.1.payload);
    && a1.1.Delivered? && a1.0.Valid()
    && var ack := SendNow(a1.0, room, false);
    && ack.1.Emitted? && ack.0 == a
    && RecvRx(synAck.0, ack.1.seg, ack.1.payload) == (b, Delivered)
  }

  /** For all initial numbers, ring sizes up to 65535 and response sizes: a dialing and a listening connection
      exchange their handshake and are then a fresh pair, each advertising all of its receive ring. */
  lemma {:induction false} OpenedConnsConnect(c: Config, txA: nat, txB: nat, room: nat) returns (k: Stream.Link)
    requires c.Valid()
    ensures var a0 := OpenConn(Unopened(txA, c.wndA), c.issA, SynSent);
            var b0 := OpenConn(Unopened(txB, c.wndB), c.issB, Listen);
            && a0.1 == b0.1 == NoError && a0.0.Valid() && b0.0.Valid()
            && Exchanged(a0.0, b0.0, room, k.a, k.b)
    ensures Stream.Fresh(k) && k.a.txCap == txA && k.b.txCap == txB
    ensures k.a.scb.snd.iss == k.b.scb.rcv.irs == c.issA && k.b.scb.snd.iss == k.a.scb.rcv.irs == c.issB
  {
    BothOpen(c, txA, txB);
    ListenerTakesSyn(c, txB);
    ListenerAnswers(c, txB, room, false);
    OpenerCompletes(c, txA, room, false);
    ListenerCompletes(c, txB);
    var a, b := EstablishedA(SynSentA(c), c).(pending0 := NO_FLAGS), EstablishedB(c);
    k := Stream.Link(Around(a, txA, c.wndA), Around(b, txB, c.wndB), [], [], [], [], [], []);
    assert InStep(Net(a, b, [], []));
  }
}
