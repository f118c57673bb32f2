/** When a pair of established connections stops: the end-to-end result says that no byte is lost or reordered, this
    module says exactly when bytes stop moving, and which writes set them in motion again. */
module Stalls {
  import opened SeqNum
  import opened Segments
  import opened Control
  import opened Rings
  import opened Conns
  import Ideal
  import Pair
  import opened Stream

  /** An established connection with no control flag but ACK to send, whose peer's window is not overrun. */
  predicate Ready(c: Conn) {
    && c.Valid() && c.rxCap <= MAX_WINDOW && !c.closing && c.scb.state.Established? && !c.scb.challengeAck
    && (c.scb.pending0 == NO_FLAGS || c.scb.pending0 == ACK)
    && c.scb.snd.MaxSend() <= c.scb.snd.wnd
  }

  /** With nothing to send, no acknowledgment is due; with bytes to send, the peer's window has no room. */
  predicate Mute(c: Conn) {
    if c.tx == [] then c.scb.pending0 == NO_FLAGS else c.scb.snd.MaxSend() == 0
  }

  /** A connection has nothing to transmit exactly when it is mute. In particular a pending acknowledgment is
      withheld while bytes wait for a window with no room. */
  lemma {:induction false} SilentIffMute(c: Conn, room: nat)
    requires Ready(c) && room > 0
    ensures SendTx(c, room).1 == Yielded <==> Mute(c)
    ensures Mute(c) ==> SendTx(c, room).0 == c.(scb := SetRecvWindow(c.scb, c.Free()))
  {
  }

  /** Nothing is in flight and neither side has anything it may transmit. */
  predicate Stalled(k: Link) {
    k.ab == k.ba == [] && Ready(k.a) && Mute(k.a) && Ready(k.b) && Mute(k.b)
  }

  /** The event writes bytes to a side whose peer has room for them. */
  predicate Wakes(c: Conn, e: Event) {
    e.Write? && 0 < |e.b| <= c.txCap && c.scb.snd.MaxSend() > 0
  }

  predicate SideWakes(k: Link, e: Event) {
    Wakes(if e.side.SideA? then k.a else k.b, e)
  }

  /** What the sides keep while stalled: their room, and the size of their rings. */
  predicate SameRoom(k: Link, k': Link) {
    && k'.a.scb.snd == k.a.scb.snd && k'.a.txCap == k.a.txCap && k'.b.scb.snd == k.b.scb.snd && k'.b.txCap == k.b.txCap
  }

  /** An event at a side of a stalled pair ends the stall exactly if it wakes that side; no event sends anything. */
  lemma {:induction false} StalledStep(k: Link, e: Event)
    requires Stalled(k) && (e.Send? ==> e.room > 0)
    ensures var o := NextA(k, e);
            && o.Going? && o.link.ab == o.link.ba == [] && SameRoom(k, o.link) && Ready(o.link.a) && o.link.b == k.b
            && (Mute(o.link.a) <==> !Wakes(k.a, e))
  {
    if e.Send? {
      SilentIffMute(k.a, e.room);
    }
  }

  lemma {:induction false} StalledNext(k: Link, e: Event)
    requires Stalled(k) && (e.Send? ==> e.room > 0)
    ensures Next(k, e).Going? && SameRoom(k, Next(k, e).link)
    ensures Stalled(Next(k, e).link) <==> !SideWakes(k, e)
  {
    if e.side.SideA? {
      StalledStep(k, e);
    } else {
      StalledStep(Swap(k), e);
    }
  }

  predicate Rooms(events: seq<Event>) {
    forall i :: 0 <= i < |events| && events[i].Send? ==> events[i].room > 0
  }

  /** Until a write wakes one of its sides, a stalled pair stays stalled. */
  lemma {:induction false} StalledUntilWoken(k: Link, events: seq<Event>) returns (k': Link)
    requires Stalled(k) && Rooms(events) && forall i :: 0 <= i < |events| ==> !SideWakes(k, events[i])
    ensures Runs(k, events, k') && Stalled(k') && SameRoom(k, k')
    decreases |events|
  {
    k' := k;
    if events != [] {
      StalledNext(k, events[0]);
      var k1 := Next(k, events[0]).link;
      assert forall i :: 0 <= i < |events| ==> SideWakes(k1, events[i]) == SideWakes(k, events[i]);
      k' := StalledUntilWoken(k1, events[1..]);
    }
  }

  /** A list of events puts a packet in flight at some point. */
  ghost predicate Transmits(k: Link, events: seq<Event>)
    decreases |events|
  {
    || k.ab != [] || k.ba != []
    || (&& events != [] && k.a.Valid() && k.b.Valid() && Next(k, events[0]).Going?
        && Transmits(Next(k, events[0]).link, events[1..]))
  }

  lemma {:induction false} StalledTransmitsNothing(k: Link, events: seq<Event>)
    requires Stalled(k) && Rooms(events) && forall i :: 0 <= i < |events| ==> !SideWakes(k, events[i])
    ensures !Transmits(k, events)
    decreases |events|
  {
    if events != [] {
      StalledNext(k, events[0]);
      var k1 := Next(k, events[0]).link;
      assert forall i :: 0 <= i < |events| ==> SideWakes(k1, events[i]) == SideWakes(k, events[i]);
      StalledTransmitsNothing(k1, events[1..]);
    }
  }

  predicate Writes(events: seq<Event>) {
    exists i :: 0 <= i < |events| && events[i].Write?
  }

  /** What a connection that is not mute has to send is sent. */
  lemma {:induction false} AudibleEmits(c: Conn, room: nat)
    requires Ready(c) && room > 0 && !Mute(c)
    ensures SendTx(c, room).1.Emitted?
  {
    var n := Min(|c.tx|, room);
    var b := SetRecvWindow(c.scb, c.Free());
    var m := if n <= b.snd.MaxSend() then n else b.snd.MaxSend();
    var seg := Segment(b.snd.nxt, b.rcv.nxt, m, b.rcv.wnd, ACK);
    assert b.pending0.Or(ACK) == ACK;
    assert PendingSegment(b, n) == (b, Offered(seg));
    assert CheckOutgoing(b, seg) == NoError;
  }

  lemma {:induction false} AudibleTransmits(k: Link, side: Side)
    requires Ready(k.a) && Ready(k.b) && !Mute(if side.SideA? then k.a else k.b)
    ensures Transmits(k, [Send(side, 1)])
  {
    AudibleEmits(if side.SideA? then k.a else k.b, 1);
    var k1 := Next(k, Send(side, 1)).link;
    assert k1.ab != [] || k1.ba != [];
    assert Transmits(k1, []);
  }

  /** With nothing in flight, no list of reads, sends and receives ever puts a packet in flight if and only if both
      sides are mute: bytes and acknowledgments stop moving whatever the users read. */
  lemma {:induction false} StallIff(k: Link)
    requires k.ab == k.ba == [] && Ready(k.a) && Ready(k.b)
    ensures (forall events | Rooms(events) && !Writes(events) :: !Transmits(k, events)) <==> Mute(k.a) && Mute(k.b)
  {
    if Mute(k.a) && Mute(k.b) {
      forall events | Rooms(events) && !Writes(events)
        ensures !Transmits(k, events)
      {
        StalledTransmitsNothing(k, events);
      }
    } else {
      var side := if Mute(k.a) then SideB else SideA;
      AudibleTransmits(k, side);
      assert Rooms([Send(side, 1)]) && !Writes([Send(side, 1)]);
    }
  }

  /** No write can help a side: its peer has no room, or it has no ring to write to. */
  predicate Deaf(c: Conn) {
    c.scb.snd.MaxSend() == 0 || c.txCap == 0
  }

  lemma {:induction false} WriteTransmits(k: Link, side: Side)
    requires Stalled(k) && !Deaf(if side.SideA? then k.a else k.b)
    ensures Transmits(k, [Write(side, [0]), Send(side, 1)])
  {
    var e := Write(side, [0]);
    StalledNext(k, e);
    if side.SideA? {
      StalledStep(k, e);
    } else {
      StalledStep(Swap(k), e);
    }
    AudibleTransmits(Next(k, e).link, side);
    assert [e, Send(side, 1)][1..] == [Send(side, 1)];
  }

  /** With nothing in flight, no list of writes, reads, sends and receives ever puts a packet in flight if and only if
      both sides are mute and no write can help either. */
  lemma {:induction false} HelplessIff(k: Link)
    requires k.ab == k.ba == [] && Ready(k.a) && Ready(k.b)
    ensures (forall events | Rooms(events) :: !Transmits(k, events)) <==>
              Mute(k.a) && Mute(k.b) && Deaf(k.a) && Deaf(k.b)
  {
    if !(Mute(k.a) && Mute(k.b)) {
      var side := if Mute(k.a) then SideB else SideA;
      AudibleTransmits(k, side);
      assert Rooms([Send(side, 1)]);
    } else if !(Deaf(k.a) && Deaf(k.b)) {
      var side := if Deaf(k.a) then SideB else SideA;
      WriteTransmits(k, side);
      assert Rooms([Write(side, [0]), Send(side, 1)]);
    } else {
      forall events | Rooms(events)
        ensures !Transmits(k, events)
      {
        StalledTransmitsNothing(k, events);
      }
    }
  }

  // ---------------------------------------------------------------------------------------------
  // With Close among the events

  datatype Call = Usual(e: Event) | CloseCall(side: Side)

  function CallSide(c: Call): Side {
    match c
    case Usual(e) => e.side
    case CloseCall(side) => side
  }

  /** A user may no longer write or read once it has called Close. */
  function CallA(k: Link, c: Call): Outcome
    requires k.a.Valid()
  {
    match c
    case Usual(e) => if (e.Write? || e.Read?) && !PipeOpen(k.a) then Going(k) else NextA(k, e)
    case CloseCall(_) => Going(k.(a := CloseConn(k.a).0))
  }

  function NextCall(k: Link, c: Call): Outcome
    requires k.a.Valid() && k.b.Valid()
  {
    if CallSide(c).SideA? then CallA(k, c) else SwapOutcome(CallA(Swap(k), c))
  }

  predicate CallRooms(calls: seq<Call>) {
    forall i :: 0 <= i < |calls| && calls[i].Usual? && calls[i].e.Send? ==> calls[i].e.room > 0
  }

  ghost predicate CallsTransmit(k: Link, calls: seq<Call>)
    decreases |calls|
  {
    || k.ab != [] || k.ba != []
    || (&& calls != [] && k.a.Valid() && k.b.Valid() && NextCall(k, calls[0]).Going?
        && CallsTransmit(NextCall(k, calls[0]).link, calls[1..]))
  }

  /** Bytes to send and no room for them, closing or not. */
  predicate Gagged(c: Conn) {
    && c.Valid() && c.rxCap <= MAX_WINDOW && c.scb.state.Established? && !c.scb.challengeAck
    && (c.scb.pending0 == NO_FLAGS || c.scb.pending0 == ACK)
    && c.tx != [] && c.scb.snd.MaxSend() == 0
  }

  lemma {:induction false} GaggedSends(c: Conn, room: nat)
    requires Gagged(c) && room > 0
    ensures SendTx(c, room) == (c.(scb := SetRecvWindow(c.scb, c.Free())), Yielded)
  {
    var b := SetRecvWindow(c.scb, c.Free());
    assert PendingSegment(b, Min(|c.tx|, room)) == (b, NoSegment);
  }

  lemma {:induction false} GaggedCall(k: Link, c: Call)
    requires Gagged(k.a) && k.ba == [] && (c.Usual? && c.e.Send? ==> c.e.room > 0)
    ensures var o := CallA(k, c);
            o.Going? && Gagged(o.link.a) && o.link.b == k.b && o.link.ab == k.ab && o.link.ba == []
  {
    if c.Usual? && c.e.Send? {
      GaggedSends(k.a, c.e.room);
    }
  }

  lemma {:induction false} GaggedForever(k: Link, calls: seq<Call>)
    requires k.ab == k.ba == [] && Gagged(k.a) && Gagged(k.b) && CallRooms(calls)
    ensures !CallsTransmit(k, calls)
    decreases |calls|
  {
    if calls != [] {
      if CallSide(calls[0]).SideA? {
        GaggedCall(k, calls[0]);
      } else {
        GaggedCall(Swap(k), calls[0]);
      }
      GaggedForever(NextCall(k, calls[0]).link, calls[1..]);
    }
  }

  /** A side with nothing to send has a FIN to send once its user closes. */
  lemma {:induction false} CloseEmits(c: Conn)
    requires Ready(c) && c.tx == [] && c.scb.pending0 == NO_FLAGS
    ensures SendTx(CloseConn(c).0, 1).1.Emitted?
  {
    assert NO_FLAGS.And(ACK).Or(FIN) == FIN && FIN.Or(ACK) == FINACK;
    var c1 := CloseConn(c).0;
    var b := SetRecvWindow(c1.scb, c.Free());
    var seg := Segment(b.snd.nxt, b.rcv.nxt, 0, b.rcv.wnd, FINACK);
    assert PendingSegment(b, 0) == (b, Offered(seg));
    assert CheckOutgoing(b, seg) == NoError;
  }

  lemma {:induction false} SendCallTransmits(k: Link, side: Side)
    requires k.a.Valid() && k.b.Valid() && SendTx(if side.SideA? then k.a else k.b, 1).1.Emitted?
    ensures CallsTransmit(k, [Usual(Send(side, 1))])
  {
    var k1 := NextCall(k, Usual(Send(side, 1))).link;
    assert k1.ab != [] || k1.ba != [];
    assert CallsTransmit(k1, []);
  }

  lemma {:induction false} CloseTransmits(k: Link, side: Side)
    requires Ready(k.a) && Ready(k.b)
    requires var c := if side.SideA? then k.a else k.b; c.tx == [] && c.scb.pending0 == NO_FLAGS
    ensures CallsTransmit(k, [CloseCall(side), Usual(Send(side, 1))])
  {
    CloseEmits(if side.SideA? then k.a else k.b);
    var k1 := NextCall(k, CloseCall(side)).link;
    SendCallTransmits(k1, side);
    assert [CloseCall(side), Usual(Send(side, 1))][1..] == [Usual(Send(side, 1))];
  }

  /** Whatever is not gagged can be made to send. */
  lemma {:induction false} UngaggedTransmits(k: Link, side: Side) returns (calls: seq<Call>)
    requires Ready(k.a) && Ready(k.b) && !Gagged(if side.SideA? then k.a else k.b)
    ensures CallRooms(calls) && CallsTransmit(k, calls)
  {
    var c := if side.SideA? then k.a else k.b;
    if Mute(c) {
      calls := [CloseCall(side), Usual(Send(side, 1))];
      CloseTransmits(k, side);
    } else {
      calls := [Usual(Send(side, 1))];
      AudibleEmits(c, 1);
      SendCallTransmits(k, side);
    }
  }

  /** With nothing in flight, no list of events at all, Close included, ever puts a packet in flight if and only if
      both sides have bytes to send and no room for them. */
  lemma {:induction false} DeadIff(k: Link)
    requires k.ab == k.ba == [] && Ready(k.a) && Ready(k.b)
    ensures (forall calls | CallRooms(calls) :: !CallsTransmit(k, calls)) <==> Gagged(k.a) && Gagged(k.b)
  {
    if Gagged(k.a) && Gagged(k.b) {
      forall calls | CallRooms(calls)
        ensures !CallsTransmit(k, calls)
      {
        GaggedForever(k, calls);
      }
    } else {
      var calls := UngaggedTransmits(k, if Gagged(k.a) then SideB else SideA);
    }
  }

  lemma {:induction false} PlainIsReady(c: Conn, x: Ideal.IBlock)
    requires Plain(c, x)
    ensures Ready(c)
  {
    SizeofIsDistance(x.una, x.nxt);
  }

  /** The three results hold at every point of every run of a fresh pair at which nothing is in flight. */
  lemma {:induction false} ReachedStallIff(k: Link, events: seq<Event>) returns (k': Link)
    requires Fresh(k) && forall i :: 0 <= i < |events| && events[i].Read? ==> events[i].n > 0
    ensures Runs(k, events, k')
    ensures k'.ab == k'.ba == [] ==>
              && ((forall es | Rooms(es) && !Writes(es) :: !Transmits(k', es)) <==> Mute(k'.a) && Mute(k'.b))
              && ((forall es | Rooms(es) :: !Transmits(k', es)) <==>
                  Mute(k'.a) && Mute(k'.b) && Deaf(k'.a) && Deaf(k'.b))
              && ((forall cs | CallRooms(cs) :: !CallsTransmit(k', cs)) <==> Gagged(k'.a) && Gagged(k'.b))
  {
    var l := FreshGood(k);
    k' := RunsSound(k, events);
    var l': Pair.INet :| Good(k', l');
    PlainIsReady(k'.a, l'.a);
    PlainIsReady(k'.b, l'.b);
    if k'.ab == k'.ba == [] {
      StallIff(k');
      HelplessIff(k');
      DeadIff(k');
    }
  }

  // ---------------------------------------------------------------------------------------------
  // A fresh pair can stall

  function Zeros(n: nat): seq<byte> {
    seq(n, _ => 0)
  }

  /** An established connection with empty rings, nothing in flight and all its receive space advertised. */
  predicate Quiescent(c: Conn) {
    && c.Valid() && c.tx == c.rx == [] && !c.closing && c.rxCap <= MAX_WINDOW
    && c.scb.state.Established? && !c.scb.challengeAck && c.scb.pending0 == c.scb.pending1 == NO_FLAGS
    && c.scb.snd.una == c.scb.snd.nxt && 1 <= c.scb.snd.wnd <= MAX_WINDOW && c.scb.rcv.wnd == c.rxCap
  }

  /** The segment that fills the peer's window, and the connection that has sent it. */
  function Filling(c: Conn): Segment
    requires Quiescent(c)
  {
    Segment(c.scb.snd.nxt, c.scb.rcv.nxt, c.scb.snd.wnd, c.rxCap, ACK)
  }

  function Filled(c: Conn): Conn {
    c.(scb := c.scb.(snd := c.scb.snd.(nxt := Add(c.scb.snd.nxt, c.scb.snd.wnd))))
  }

  lemma {:induction false} FillingSent(c: Conn, n: nat)
    requires Quiescent(c) && n == c.scb.snd.wnd
    ensures EmitPending(c.scb, n) == Sent(Filled(c).scb, Filling(c))
  {
    OrNothing(ACK);
    WithoutAll(NO_FLAGS, ACK);
    WithoutAll(NO_FLAGS, ACK.And(FIN));
    assert PendingSegment(c.scb, n) == (c.scb, Offered(Filling(c)));
    assert CheckOutgoing(c.scb, Filling(c)) == NoError;
  }

  lemma {:induction false} FillsWindow(c: Conn)
    requires Quiescent(c) && c.scb.snd.wnd <= c.txCap
    ensures var z := Zeros(c.scb.snd.wnd);
            SendTx(c.(tx := z), |z|) == (Filled(c), Emitted(Filling(c), z))
  {
    var z := Zeros(c.scb.snd.wnd);
    var b := SetRecvWindow(c.scb, c.rxCap);
    assert b == c.scb;
    FillingSent(c, |z|);
    assert z[|z|..] == [] && z[..|z|] == z;
  }

  /** Two filling segments that cross leave each side with the peer's window full. */
  lemma {:induction false} Crosses(c: Conn, d: Conn) returns (c': Conn)
    requires Quiescent(c) && Quiescent(d) && c.txCap > 0
    requires d.scb.snd.nxt == c.scb.rcv.nxt && c.scb.snd.nxt == d.scb.rcv.nxt
    requires d.scb.snd.wnd == c.rxCap && c.scb.snd.wnd == d.rxCap
    ensures RecvRx(Filled(c).(tx := [0]), Filling(d), Zeros(d.scb.snd.wnd)) == (c', Delivered)
    ensures Ready(c') && c'.tx == [0] && Mute(c')
  {
    var f := Filled(c).(tx := [0]);
    var r := Control.Recv(f.scb, Filling(d));
    assert [] + Zeros(d.scb.snd.wnd) == Zeros(d.scb.snd.wnd);
    c' := f.(scb := f.scb.(pending0 := ACK, rcv := f.scb.rcv.(nxt := Add(f.scb.rcv.nxt, c.rxCap))),
             rx := Zeros(d.scb.snd.wnd));
    assert r == Result(c'.scb, NoError);
  }

  /** Side A fills the peer's window: two events, whichever side A stands for. */
  lemma {:induction false} FillA(k: Link, side: Side) returns (k1: Link, k2: Link)
    requires k.b.Valid() && Quiescent(k.a) && k.a.scb.snd.wnd <= k.a.txCap && k.ab == []
    ensures k1.a.Valid() && k1.b == k.b && k2.a == Filled(k.a) && k2.b == k.b
    ensures NextA(k, Write(side, Zeros(k.a.scb.snd.wnd))) == Going(k1)
    ensures NextA(k1, Send(side, k.a.scb.snd.wnd)) == Going(k2)
    ensures k2.ab == [Pkt(Filling(k.a), Zeros(k.a.scb.snd.wnd))] && k2.ba == k.ba
  {
    var z := Zeros(k.a.scb.snd.wnd);
    assert [] + z == z;
    k1 := k.(a := k.a.(tx := z), wroteA := k.wroteA + z);
    FillsWindow(k.a);
    k2 := k1.(a := Filled(k.a), ab := [Pkt(Filling(k.a), z)]);
  }

  /** Side A writes one byte more and then receives the peer's filling segment. */
  lemma {:induction false} MuteA(k: Link, c: Conn, d: Conn, side: Side) returns (k1: Link, k2: Link)
    requires Quiescent(c) && Quiescent(d) && c.txCap > 0 && k.b.Valid()
    requires d.scb.snd.nxt == c.scb.rcv.nxt && c.scb.snd.nxt == d.scb.rcv.nxt
    requires d.scb.snd.wnd == c.rxCap && c.scb.snd.wnd == d.rxCap
    requires k.a == Filled(c) && k.ba == [Pkt(Filling(d), Zeros(d.scb.snd.wnd))]
    ensures k1.a.Valid() && k1.b == k.b && k2.b == k.b && k2.ab == k.ab && k2.ba == []
    ensures NextA(k, Write(side, [0])) == Going(k1) && NextA(k1, Recv(side)) == Going(k2)
    ensures Ready(k2.a) && k2.a.tx == [0] && Mute(k2.a)
  {
    assert [] + [0] == [0];
    k1 := k.(a := k.a.(tx := [0]), wroteA := k.wroteA + [0]);
    var c' := Crosses(c, d);
    k2 := k1.(a := c', ba := []);
  }

  lemma {:induction false} RunsCons(k: Link, e: Event, k1: Link, rest: seq<Event>, k': Link)
    requires k.a.Valid() && k.b.Valid() && Next(k, e) == Going(k1) && Runs(k1, rest, k')
    ensures Runs(k, [e] + rest, k')
  {
    var events := [e] + rest;
    assert events[0] == e && events[1..] == rest;
  }

  lemma {:induction false} RunsTwo(k: Link, e: Event, f: Event, k1: Link, k2: Link, rest: seq<Event>, k': Link)
    requires k.a.Valid() && k.b.Valid() && Next(k, e) == Going(k1)
    requires k1.a.Valid() && k1.b.Valid() && Next(k1, f) == Going(k2) && Runs(k2, rest, k')
    ensures Runs(k, [e, f] + rest, k')
  {
    RunsCons(k1, f, k2, rest, k');
    RunsCons(k, e, k1, [f] + rest, k');
    assert [e] + ([f] + rest) == [e, f] + rest;
  }

  /** A fresh pair that has advertised all its receive space, with transmit rings no smaller than the windows. */
  predicate Stallable(k: Link) {
    && Fresh(k) && Quiescent(k.a) && Quiescent(k.b)
    && k.a.rxCap <= k.b.txCap && k.b.rxCap <= k.a.txCap
  }

  /** Both sides fill the other's window, write one byte more, and receive. */
  function Crossing(k: Link): seq<Event> {
    [Write(SideA, Zeros(k.a.scb.snd.wnd)), Send(SideA, k.a.scb.snd.wnd)] +
    ([Write(SideB, Zeros(k.b.scb.snd.wnd)), Send(SideB, k.b.scb.snd.wnd)] +
     ([Write(SideA, [0]), Recv(SideA)] + ([Write(SideB, [0]), Recv(SideB)] + [])))
  }

  /** Every such pair can stall, although nothing is ever refused or lost. */
  lemma {:induction false} FreshMayStall(k: Link) returns (k': Link)
    requires Stallable(k)
    ensures Runs(k, Crossing(k), k') && Stalled(k') && Gagged(k'.a) && Gagged(k'.b)
  {
    var k1, k2 := FillA(k, SideA);
    var k3, k4 := FillA(Swap(k2), SideB);
    var k5, k6 := MuteA(Swap(k4), k.a, k.b, SideA);
    var k7, k8 := MuteA(Swap(k6), k.b, k.a, SideB);
    k' := Swap(k8);
    RunsTwo(k6, Write(SideB, [0]), Recv(SideB), Swap(k7), k', [], k');
    RunsTwo(Swap(k4), Write(SideA, [0]), Recv(SideA), k5, k6, [Write(SideB, [0]), Recv(SideB)] + [], k');
    RunsTwo(k2, Write(SideB, Zeros(k.b.scb.snd.wnd)), Send(SideB, k.b.scb.snd.wnd), Swap(k3), Swap(k4),
            [Write(SideA, [0]), Recv(SideA)] + ([Write(SideB, [0]), Recv(SideB)] + []), k');
    RunsTwo(k, Write(SideA, Zeros(k.a.scb.snd.wnd)), Send(SideA, k.a.scb.snd.wnd), k1, k2,
            [Write(SideB, Zeros(k.b.scb.snd.wnd)), Send(SideB, k.b.scb.snd.wnd)] +
            ([Write(SideA, [0]), Recv(SideA)] + ([Write(SideB, [0]), Recv(SideB)] + [])), k');
  }

  // ---------------------------------------------------------------------------------------------
  // One-sided traffic can stall too

  /** The peer of a connection that has filled its window: it has taken the bytes and owes an acknowledgment. */
  function Full(c: Conn, d: Conn): Conn
    requires Quiescent(c) && Quiescent(d)
  {
    d.(scb := d.scb.(pending0 := ACK, rcv := d.scb.rcv.(nxt := Add(d.scb.rcv.nxt, d.rxCap))), rx := Zeros(d.rxCap))
  }

  /** ... and once it has acknowledged them, and advertised a window of zero. */
  function Shut(c: Conn, d: Conn): Conn
    requires Quiescent(c) && Quiescent(d)
  {
    var f := Full(c, d);
    f.(scb := f.scb.(pending0 := NO_FLAGS, rcv := f.scb.rcv.(wnd := 0)))
  }

  function ShutSegment(c: Conn, d: Conn): Segment
    requires Quiescent(c) && Quiescent(d)
  {
    Segment(d.scb.snd.nxt, Add(d.scb.rcv.nxt, d.rxCap), 0, 0, ACK)
  }

  /** The connection that has filled the window, once it has that acknowledgment. */
  function ShutOut(c: Conn): Conn {
    c.(scb := c.scb.(snd := SendSpace(c.scb.snd.iss, Add(c.scb.snd.nxt, c.scb.snd.wnd),
                                      Add(c.scb.snd.nxt, c.scb.snd.wnd), 0)))
  }

  predicate Matched(c: Conn, d: Conn) {
    && Quiescent(c) && Quiescent(d)
    && d.scb.snd.nxt == c.scb.rcv.nxt && c.scb.snd.nxt == d.scb.rcv.nxt
    && d.scb.snd.wnd == c.rxCap && c.scb.snd.wnd == d.rxCap
  }

  lemma {:induction false} FillsUp(c: Conn, d: Conn)
    requires Matched(c, d)
    ensures RecvRx(d, Filling(c), Zeros(c.scb.snd.wnd)) == (Full(c, d), Delivered)
  {
    assert [] + Zeros(c.scb.snd.wnd) == Zeros(c.scb.snd.wnd);
    assert NO_FLAGS.Or(ACK) == ACK;
    assert Control.Recv(d.scb, Filling(c)) == Result(Full(c, d).scb, NoError);
  }

  lemma {:induction false} Shuts(c: Conn, d: Conn)
    requires Matched(c, d)
    ensures SendTx(Full(c, d), 1) == (Shut(c, d), Emitted(ShutSegment(c, d), []))
  {
    var b := SetRecvWindow(Full(c, d).scb, 0);
    assert ACK.Or(ACK) == ACK && ACK.Without(ACK) == NO_FLAGS;
    assert PendingSegment(b, 0) == (b, Offered(ShutSegment(c, d)));
    assert EmitPending(b, 0) == Sent(Shut(c, d).scb, ShutSegment(c, d));
  }

  lemma {:induction false} IsShutOut(c: Conn, d: Conn)
    requires Matched(c, d)
    ensures RecvRx(Filled(c), ShutSegment(c, d), []) == (ShutOut(c), Delivered)
  {
    assert Control.Recv(Filled(c).scb, ShutSegment(c, d)) == Result(ShutOut(c).scb, NoError);
  }

  lemma {:induction false} ShutMeansMute(c: Conn, d: Conn)
    requires Matched(c, d) && c.txCap > 0
    ensures var a, b := ShutOut(c).(tx := [0]), Shut(c, d).(rx := []);
            Ready(a) && Mute(a) && Ready(b) && Mute(b) && b.scb.snd.MaxSend() == c.rxCap
  {
  }

  /** Side A fills B's window, B acknowledges with its ring full, B's user reads everything, and A has more. */
  function Starving(k: Link): seq<Event> {
    [Write(SideA, Zeros(k.a.scb.snd.wnd)), Send(SideA, k.a.scb.snd.wnd)] +
    ([Recv(SideB), Send(SideB, 1)] + ([Recv(SideA), Read(SideB, k.b.rxCap)] + [Write(SideA, [0])]))
  }

  lemma {:induction false} RunsOne(k: Link, e: Event, k1: Link)
    requires k.a.Valid() && k.b.Valid() && Next(k, e) == Going(k1)
    ensures Runs(k, [e], k1)
  {
    assert Runs(k1, [e][1..], k1);
  }

  /** The acknowledgment crosses back: two events at B and one at A. */
  lemma {:induction false} Acknowledges(k: Link, c: Conn, d: Conn) returns (k1: Link, k2: Link, k3: Link)
    requires Matched(c, d) && k.a == Filled(c) && k.b == d && k.ba == []
    requires k.ab == [Pkt(Filling(c), Zeros(c.scb.snd.wnd))]
    ensures k1.a.Valid() && k1.b.Valid() && k2.a.Valid() && k2.b.Valid()
    ensures Next(k, Recv(SideB)) == Going(k1) && Next(k1, Send(SideB, 1)) == Going(k2)
    ensures Next(k2, Recv(SideA)) == Going(k3)
    ensures k3.a == ShutOut(c) && k3.b == Shut(c, d) && k3.ab == k3.ba == []
  {
    FillsUp(c, d);
    k1 := k.(b := Full(c, d), ab := []);
    Shuts(c, d);
    k2 := k1.(b := Shut(c, d), ba := [Pkt(ShutSegment(c, d), [])]);
    IsShutOut(c, d);
    k3 := k2.(a := ShutOut(c), ba := []);
  }

  lemma {:induction false} ReadsAll(k: Link, c: Conn, d: Conn) returns (k1: Link, k2: Link)
    requires Matched(c, d) && c.txCap > 0 && k.a == ShutOut(c) && k.b == Shut(c, d) && k.ab == k.ba == []
    ensures Next(k, Read(SideB, d.rxCap)) == Going(k1) && k1.a.Valid() && k1.b.Valid()
    ensures Next(k1, Write(SideA, [0])) == Going(k2)
    ensures k2.a == ShutOut(c).(tx := [0]) && k2.b == Shut(c, d).(rx := []) && k2.ab == k2.ba == []
  {
    var z := Zeros(d.rxCap);
    assert z[d.rxCap..] == [] && [] + [0] == [0];
    k1 := k.(b := k.b.(rx := []), readB := k.readB + z[..d.rxCap]);
    k2 := k1.(a := k.a.(tx := [0]), wroteA := k.wroteA + [0]);
  }

  /** One-sided traffic: every fresh pair that advertised all its receive space, with a transmit ring no smaller
      than the window, can come to a stall in which side B has read everything and has its whole ring free, side A
      has bytes to send, and only a write at B would wake the pair. */
  lemma {:induction false} FreshMayStarve(k: Link) returns (k': Link)
    requires Fresh(k) && Quiescent(k.a) && Quiescent(k.b) && k.b.rxCap <= k.a.txCap
    ensures Runs(k, Starving(k), k') && Stalled(k')
    ensures k'.b.tx == k'.b.rx == [] && k'.a.tx != []
    ensures forall e :: SideWakes(k', e) <==> e.side.SideB? && e.Write? && 0 < |e.b| <= k.b.txCap
  {
    var k1, k2 := FillA(k, SideA);
    var k3, k4, k5 := Acknowledges(k2, k.a, k.b);
    var k6, k7 := ReadsAll(k5, k.a, k.b);
    k' := k7;
    ShutMeansMute(k.a, k.b);
    RunsOne(k6, Write(SideA, [0]), k');
    RunsTwo(k4, Recv(SideA), Read(SideB, k.b.rxCap), k5, k6, [Write(SideA, [0])], k');
    RunsTwo(k2, Recv(SideB), Send(SideB, 1), k3, k4,
            [Recv(SideA), Read(SideB, k.b.rxCap)] + [Write(SideA, [0])], k');
    RunsTwo(k, Write(SideA, Zeros(k.a.scb.snd.wnd)), Send(SideA, k.a.scb.snd.wnd), k1, k2,
            [Recv(SideB), Send(SideB, 1)] + ([Recv(SideA), Read(SideB, k.b.rxCap)] + [Write(SideA, [0])]), k');
  }
}
