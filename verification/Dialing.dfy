/** A dialing connection that waits for its answer (stacks/tcpconn.go): which answers establish it, and how an answer
    to an old SYN keeps it waiting for ever. */
module Dialing {
  import opened SeqNum
  import opened Segments
  import opened Control
  import opened Rings
  import opened Conns
  import Recovery

  /** The SYN is out and nothing has come back. */
  predicate Waiting(c: Conn) {
    c.Valid() && c.scb.state.SynSent? && c.scb.snd.una == c.scb.snd.iss && c.scb.snd.nxt == Add(c.scb.snd.iss, 1)
  }

  /** The control block has forgotten that its SYN is out. */
  predicate Wedged(c: Conn) {
    c.Valid() && c.scb.state.SynSent? && c.scb.snd.una == c.scb.snd.nxt == c.scb.snd.iss
  }

  datatype Event =
    | Arrive(seg: Segment, payload: seq<byte>)
    | SendCall(room: nat, synDue: bool)
    | WriteCall(b: seq<byte>)
    | ReadCall(n: nat)

  function Next(c: Conn, e: Event): Conn
    requires c.Valid()
  {
    match e
    case Arrive(seg, payload) => RecvRx(c, seg, payload).0
    case SendCall(room, synDue) => SendNow(c, room, synDue).0
    case WriteCall(b) => if PipeOpen(c) then WriteTx(c, b) else c
    case ReadCall(n) => if PipeOpen(c) then ReadRx(c, n).0 else c
  }

  /** The segments that a step sends. */
  function Sends(c: Conn, e: Event): seq<Segment>
    requires c.Valid()
  {
    if e.SendCall? && SendNow(c, e.room, e.synDue).1.Emitted? then [SendNow(c, e.room, e.synDue).1.seg] else []
  }

  /** An answer has ACK and no RST. */
  predicate Answers(events: seq<Event>) {
    forall i :: 0 <= i < |events| && events[i].Arrive? ==> events[i].seg.flags.ack && !events[i].seg.flags.rst
  }

  // ---------------------------------------------------------------------------------------------
  // One segment

  lemma {:induction false} WedgedRecv(b: Block, seg: Segment)
    requires b.state.SynSent? && b.snd.una == b.snd.nxt == b.snd.iss
    ensures var r := Recv(b, seg).block;
            && (!r.state.SynSent? <==>
                  && CheckIncoming(b, seg) == NoError
                  && if seg.flags.rst then seg.seqno == b.rcv.nxt else seg.flags.syn && !seg.flags.ack)
            && (r.state.SynSent? ==> r.snd.una == r.snd.nxt == r.snd.iss == b.snd.iss && r.rcv == b.rcv)
    ensures Recv(b, seg).err != PanicUnexpectedState
  {
  }

  /** Exactly what gets a wedged connection out: a reset at the number it expects, or a SYN without ACK. Everything
      else leaves it wedged. */
  lemma {:induction false} WedgedLeavesIff(c: Conn, seg: Segment, payload: seq<byte>)
    requires Wedged(c)
    ensures var c' := RecvRx(c, seg, payload).0;
            && (!c'.scb.state.SynSent? <==>
                  && CheckIncoming(c.scb, seg) == NoError
                  && if seg.flags.rst then seg.seqno == c.scb.rcv.nxt else seg.flags.syn && !seg.flags.ack)
            && (c'.scb.state.SynSent? ==>
                  Wedged(c') && c'.scb.snd.iss == c.scb.snd.iss && c'.scb.rcv == c.scb.rcv)
  {
    WedgedRecv(c.scb, seg);
  }

  /** The answer decides what becomes of a waiting connection. */
  predicate Decides(c: Conn, seg: Segment) {
    CheckIncoming(c.scb, seg) == NoError && (seg.flags.syn || seg.ackno != Add(c.scb.snd.iss, 1))
  }

  lemma {:induction false} WaitingRecv(b: Block, seg: Segment)
    requires b.state.SynSent? && b.snd.una == b.snd.iss && b.snd.nxt == Add(b.snd.iss, 1)
    requires seg.flags.ack && !seg.flags.rst && CheckIncoming(b, seg) == NoError
    ensures var r := Recv(b, seg);
            if seg.ackno != Add(b.snd.iss, 1) then
              && r.block.state.SynSent? && r.block.rcv == b.rcv
              && r.block.snd.una == r.block.snd.nxt == r.block.snd.iss == b.snd.iss
            else if seg.flags.syn then r.err == NoError && r.block.state.Established?
            else r.block == b
  {
    if seg.ackno != Add(b.snd.iss, 1) {
      Recovery.StaleAckIsScreened(b.snd.iss, Sub(seg.ackno, 1));
    }
  }

  /** What an answer does to a waiting connection: the right SYN|ACK establishes it, any answer that acknowledges
      another number wedges it, and the rest leaves it waiting. */
  lemma {:induction false} WaitingTakes(c: Conn, seg: Segment, payload: seq<byte>)
    requires Waiting(c) && seg.flags.ack && !seg.flags.rst
    ensures var c' := RecvRx(c, seg, payload).0;
            if !Decides(c, seg) then c' == c
            else if seg.ackno == Add(c.scb.snd.iss, 1) then c'.scb.state.Established?
            else Wedged(c') && c'.scb.snd.iss == c.scb.snd.iss && c'.scb.rcv == c.scb.rcv
  {
    if CheckIncoming(c.scb, seg) == NoError {
      WaitingRecv(c.scb, seg);
    }
  }

  // ---------------------------------------------------------------------------------------------
  // Every run

  /** The run of a list of events, as long as the connection waits for its answer. */
  function Run(c: Conn, events: seq<Event>): Conn
    decreases |events|
  {
    if events == [] || !c.Valid() || !c.scb.state.SynSent? then c else Run(Next(c, events[0]), events[1..])
  }

  function Sent(c: Conn, events: seq<Event>): seq<Segment>
    decreases |events|
  {
    if events == [] || !c.Valid() || !c.scb.state.SynSent? then []
    else Sends(c, events[0]) + Sent(Next(c, events[0]), events[1..])
  }

  predicate AllSyn(segs: seq<Segment>, syn: Segment) {
    forall i :: 0 <= i < |segs| ==> segs[i] == syn
  }

  lemma {:induction false} WedgedStep(c: Conn, e: Event)
    requires Wedged(c) && (e.Arrive? ==> e.seg.flags.ack && !e.seg.flags.rst)
    ensures Wedged(Next(c, e)) && SynSegment(Next(c, e).scb) == SynSegment(c.scb)
    ensures AllSyn(Sends(c, e), SynSegment(c.scb))
  {
    if e.Arrive? {
      WedgedLeavesIff(c, e.seg, e.payload);
    }
  }

  /** A wedged connection stays wedged whatever answers arrive, the right one included, and sends nothing but its
      SYN: the reset that its control block has pending never leaves. */
  lemma {:induction false} WedgedForever(c: Conn, events: seq<Event>)
    requires Wedged(c) && Answers(events)
    ensures Wedged(Run(c, events)) && AllSyn(Sent(c, events), SynSegment(c.scb))
    decreases |events|
  {
    if events != [] {
      WedgedStep(c, events[0]);
      WedgedForever(Next(c, events[0]), events[1..]);
    }
  }

  /** The first answer that decides is the right SYN|ACK. */
  predicate Answered(c: Conn, events: seq<Event>)
    decreases |events|
  {
    && events != []
    && if events[0].Arrive? && Decides(c, events[0].seg) then events[0].seg.ackno == Add(c.scb.snd.iss, 1)
       else Answered(c, events[1..])
  }

  lemma {:induction false} AnsweredSame(c: Conn, c': Conn, events: seq<Event>)
    requires c'.scb.state == c.scb.state && c'.scb.rcv == c.scb.rcv && c'.scb.snd.iss == c.scb.snd.iss
    ensures Answered(c', events) == Answered(c, events)
    decreases |events|
  {
    if events != [] {
      AnsweredSame(c, c', events[1..]);
    }
  }

  lemma {:induction false} OtherStep(c: Conn, e: Event)
    requires Waiting(c) && !e.Arrive?
    ensures var c' := Next(c, e);
            Waiting(c') && c'.scb == c.scb
  {
  }

  /** Over all runs: a waiting connection is established if and only if the first answer that decides is the right
      SYN|ACK. After a first wrong one it is wedged, and no later answer helps. */
  lemma {:induction false} EstablishedIff(c: Conn, events: seq<Event>)
    requires Waiting(c) && Answers(events)
    ensures Run(c, events).scb.state.Established? <==> Answered(c, events)
    ensures !Answered(c, events) ==> Waiting(Run(c, events)) || Wedged(Run(c, events))
    decreases |events|
  {
    if events != [] {
      var e := events[0];
      var c' := Next(c, e);
      if e.Arrive? {
        WaitingTakes(c, e.seg, e.payload);
        if !Decides(c, e.seg) {
          EstablishedIff(c', events[1..]);
        } else if e.seg.ackno != Add(c.scb.snd.iss, 1) {
          WedgedForever(c', events[1..]);
        }
      } else {
        OtherStep(c, e);
        EstablishedIff(c', events[1..]);
        AnsweredSame(c, c', events[1..]);
      }
    }
  }

  /** A connection that has just dialed waits. */
  lemma {:induction false} DialedWaits(c: Conn, iss: Value)
    requires c.Valid() && OpenConn(c, iss, SynSent).1 == NoError
    ensures Waiting(OpenConn(c, iss, SynSent).0)
  {
  }
}
