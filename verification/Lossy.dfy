/** Two connections over a network that may drop, duplicate and reorder: what a user reads is a prefix of what the
    other wrote, and no payload finds the receive ring full (stacks/tcpconn.go). */
module Lossy {
  import opened SeqNum
  import opened Segments
  import opened Control
  import opened Rings
  import opened Conns
  import Hostile
  import opened Draining
  import Edges

  /** The sessions of the two users, and the network with the blocks and the octets of both sides. */
  datatype Ends = Ends(a: Session, b: Session, net: Hostile.World)

  datatype Event = User(side: Hostile.Side, e: UserEvent) | Arrive(side: Hostile.Side, i: nat)

  /** A run stops if the code panics, and if a payload that was counted does not fit the ring. */
  datatype Result2 = On(ends: Ends) | Panicked | Overran

  function Swap(e: Ends): Ends {
    Ends(e.b, e.a, Hostile.Swap(e.net))
  }

  function SwapResult(r: Result2): Result2 {
    match r
    case On(e) => On(Swap(e))
    case _ => r
  }

  /** The network with the block that side A has now. */
  function WithBlock(e: Ends): Ends {
    e.(net := e.net.(a := e.net.a.(block := e.a.conn.scb)))
  }

  /** Side A sends: the packet, if there is one, stays in the network. */
  function Sends(e: Ends, r: (Conn, SendEvent)): Result2 {
    match Transmitted(e.a, r)
    case Broken => Panicked
    case Going(s) =>
      if r.1.Emitted? then
        var octets := Hostile.Octets(r.1.payload, r.1.seg.flags.fin);
        var p := Hostile.Pkt(r.1.seg, octets, |e.net.a.sent|, |e.net.a.got|);
        var net := e.net.(a := e.net.a.(sent := e.net.a.sent + octets), fromA := e.net.fromA + [p]);
        On(WithBlock(e.(a := s, net := net)))
      else On(WithBlock(e.(a := s)))
  }

  /** Packet p reaches side A. */
  function Takes(e: Ends, p: Hostile.Pkt): Result2
    requires e.a.conn.Valid()
  {
    var event := RecvRx(e.a.conn, p.seg, Hostile.Bytes(p.octets)).1;
    var s := Took(e.a, p.seg, Hostile.Bytes(p.octets));
    if event.RecvPanic? then Panicked
    else if event.RxFull? then Overran
    else On(WithBlock(e.(a := s, net := e.net.(a := e.net.a.(got :=
      if event.Delivered? then e.net.a.got + p.octets else e.net.a.got)))))
  }

  /** What happens at side A. Segments come from the network only. */
  function NextA(e: Ends, ev: Event): Result2
    requires e.a.conn.Valid()
  {
    match ev
    case Arrive(_, i) => if i < |e.net.fromB| then Takes(e, e.net.fromB[i]) else On(e)
    case User(_, ue) =>
      match ue
      case SendCall(room) => Sends(e, SendTx(e.a.conn, room))
      case RecvCall(_, _) => On(e)
      case _ => On(WithBlock(e.(a := Draining.Next(e.a, ue).s)))
  }

  function Next(e: Ends, ev: Event): Result2
    requires e.a.conn.Valid() && e.b.conn.Valid()
  {
    if ev.side.SideA? then NextA(e, ev) else SwapResult(NextA(Swap(e), ev))
  }

  /** Fewer than 2^31 octets are sent each way, and reads have a destination. */
  predicate Allowed(e: Ends, ev: Event) {
    ev.User? ==>
      && (ev.e.Read? ==> ev.e.n > 0)
      && (ev.e.SendCall? ==>
            var (s, sent) := if ev.side.SideA? then (e.a, e.net.a.sent) else (e.b, e.net.b.sent);
            |sent| + |s.conn.tx| + 1 < HALF)
  }

  // ---------------------------------------------------------------------------------------------
  // What every event keeps

  /** One side: its session accounts for the octets of the network. */
  ghost predicate Side(s: Session, p: Hostile.Peer) {
    && Draining.Inv(s) && Accounted(s) && s.conn.rxCap <= MAX_WINDOW && s.conn.scb == p.block
    && s.sent == Hostile.Bytes(p.sent) && s.accepted == Hostile.Bytes(p.got) && |p.sent| < HALF
  }

  /** What a side may be sent: what its user has read and what its ring holds. */
  function Limit(s: Session): int {
    |s.read| + s.conn.rxCap
  }

  ghost predicate Inv(e: Ends, m: Edges.Marks) {
    && Side(e.a, e.net.a) && Side(e.b, e.net.b)
    && Edges.Both(e.net, m, Limit(e.a), Limit(e.b))
  }

  /** The check after a send or a receive may close the block. */
  lemma {:induction false} CheckKeeps(w: Hostile.World, m: Edges.Marks, limitA: int, limitB: int, c: Conn)
    requires Edges.Both(w, m, limitA, limitB) && w.a.block == c.scb
    ensures Edges.Both(w.(a := w.a.(block := StateCheck(c).scb)), m, limitA, limitB)
  {
    if StateCheck(c) != c {
      Edges.BothClose(w, m, limitA, limitB);
      assert Hostile.NextA(w, Hostile.UserClose(Hostile.SideA)) == w.(a := w.a.(block := Close(w.a.block).block));
    } else {
      assert w.(a := w.a.(block := StateCheck(c).scb)) == w;
    }
  }

  lemma {:induction false} ReadKeeps(e: Ends, m: Edges.Marks, n: nat)
    requires Inv(e, m) && n > 0
    ensures Inv(WithBlock(e.(a := Draining.Next(e.a, Read(n)).s)), m)
  {
    var s := Draining.Next(e.a, Read(n)).s;
    StepKeeps(e.a, Read(n));
    StepAccounted(e.a, Read(n));
    ReadLeaves(e.a, n);
    Edges.LimitGrows(Hostile.Swap(e.net), m.baseB, m.baseA, m.uB, m.lastB, Limit(e.a), Limit(s));
    assert WithBlock(e.(a := s)).net == e.net;
  }

  lemma {:induction false} ReadLeaves(s: Session, n: nat)
    requires s.conn.Valid()
    ensures var t := Draining.Next(s, Read(n)).s;
            && t.conn.scb == s.conn.scb && t.sent == s.sent && t.accepted == s.accepted && t.conn.rxCap == s.conn.rxCap
            && |s.read| <= |t.read|
  {
  }

  lemma {:induction false} WriteKeeps(e: Ends, m: Edges.Marks, b: seq<byte>)
    requires Inv(e, m)
    ensures Inv(WithBlock(e.(a := Draining.Next(e.a, Write(b)).s)), m)
  {
    var s := Draining.Next(e.a, Write(b)).s;
    StepKeeps(e.a, Write(b));
    StepAccounted(e.a, Write(b));
    assert s.conn.scb == e.a.conn.scb && s.read == e.a.read && s.conn.rxCap == e.a.conn.rxCap;
    assert WithBlock(e.(a := s)).net == e.net;
  }

  lemma {:induction false} CloseNet(e: Ends, m: Edges.Marks, b: Block)
    requires Inv(e, m) && (b == e.net.a.block || b == Close(e.net.a.block).block)
    ensures Edges.Both(e.net.(a := e.net.a.(block := b)), m, Limit(e.a), Limit(e.b))
  {
    if b == e.net.a.block {
      assert e.net.(a := e.net.a.(block := b)) == e.net;
    } else {
      Edges.BothClose(e.net, m, Limit(e.a), Limit(e.b));
      assert Hostile.NextA(e.net, Hostile.UserClose(Hostile.SideA)) == e.net.(a := e.net.a.(block := b));
    }
  }

  lemma {:induction false} CloseKeeps(e: Ends, m: Edges.Marks)
    requires Inv(e, m)
    ensures Inv(WithBlock(e.(a := Draining.Next(e.a, CloseCall).s)), m)
  {
    var s := Draining.Next(e.a, CloseCall).s;
    StepKeeps(e.a, CloseCall);
    StepAccounted(e.a, CloseCall);
    CloseLeaves(e.a);
    CloseNet(e, m, s.conn.scb);
  }

  lemma {:induction false} CloseLeaves(s: Session)
    requires s.conn.Valid()
    ensures var t := Draining.Next(s, CloseCall).s;
            && (t.conn.scb == s.conn.scb || t.conn.scb == Close(s.conn.scb).block)
            && t.sent == s.sent && t.accepted == s.accepted && t.read == s.read && t.conn.rxCap == s.conn.rxCap
  {
  }

  // Sending.

  /** The network once side A has advertised its free space and sent what its block offers. */
  function SentNet(e: Ends, n: nat): Hostile.World
    requires e.a.conn.Valid() && n <= |e.a.conn.tx|
  {
    var w := Hostile.NextA(e.net, Hostile.SetWindow(Hostile.SideA, e.a.conn.Free()));
    Hostile.NextA(w, Hostile.Emit(Hostile.SideA, e.a.conn.tx[..n]))
  }

  lemma {:induction false} SentNetKeeps(e: Ends, m: Edges.Marks, n: nat)
    requires Inv(e, m) && n <= |e.a.conn.tx| && |e.net.a.sent| + |e.a.conn.tx| + 1 < HALF
    ensures Edges.Both(SentNet(e, n), m, Limit(e.a), Limit(e.b))
  {
    var free := e.a.conn.Free();
    var w := Hostile.NextA(e.net, Hostile.SetWindow(Hostile.SideA, free));
    Edges.BothWindow(e.net, m, Limit(e.a), Limit(e.b), free);
    if e.net.b.block.state.Established? {
      Edges.GotBytesOnly(e.net, m, Limit(e.a), Limit(e.b));
    }
    Edges.BothEmit(w, m, Limit(e.a), Limit(e.b), e.a.conn.tx[..n]);
  }

  /** What is left of the send agrees with that network, but for the closing check. */
  lemma {:induction false} SendsIs(e: Ends, n: nat, em: Emission)
    requires e.a.conn.Valid() && e.a.conn.scb == e.net.a.block && n <= |e.a.conn.tx|
    requires em == EmitPending(SetRecvWindow(e.a.conn.scb, e.a.conn.Free()), n) && !em.Crash?
    requires em.Sent? ==> em.seg.dataLen <= n
    requires em.Idle? || em.Fault? ==> em.block == SetRecvWindow(e.a.conn.scb, e.a.conn.Free())
    ensures var c := Handed(e.a.conn, n, em);
            var r := Sends(e, FinishSend(e.a.conn, n, em));
            && SentNet(e, n).a.block == c.scb
            && r.On? && r.ends.b == e.b
            && r.ends.a.conn == (if em.Fault? then c else StateCheck(c))
            && r.ends.net == SentNet(e, n).(a := SentNet(e, n).a.(block := r.ends.a.conn.scb))
            && r.ends.a.read == e.a.read && r.ends.a.accepted == e.a.accepted
  {
    var tx := e.a.conn.tx;
    if em.Sent? {
      assert tx[..n][..em.seg.dataLen] == tx[..em.seg.dataLen];
      if n == 0 {
        assert tx[..em.seg.dataLen] == [];
      }
    }
  }

  lemma {:induction false} SentBytes(e: Ends, r: (Conn, SendEvent))
    requires e.a.sent == Hostile.Bytes(e.net.a.sent) && Sends(e, r).On?
    ensures var e' := Sends(e, r).ends;
            && e'.a.sent == Hostile.Bytes(e'.net.a.sent) && e'.net.a.got == e.net.a.got && e'.net.b == e.net.b
            && e'.a == Transmitted(e.a, r).s && e'.a.conn.scb == e'.net.a.block
            && |e'.net.a.sent| <= |e.net.a.sent| + (if r.1.Emitted? then |r.1.payload| + 1 else 0)
  {
    if r.1.Emitted? {
      var octets := Hostile.Octets(r.1.payload, r.1.seg.flags.fin);
      Edges.OctetsFin(r.1.payload, r.1.seg.flags.fin);
      Edges.BytesConcat(e.net.a.sent, octets);
    }
  }

  lemma {:induction false} CheckedKeeps(w: Hostile.World, m: Edges.Marks, limitA: int, limitB: int, c: Conn, c': Conn)
    requires Edges.Both(w, m, limitA, limitB) && w.a.block == c.scb && (c' == c || c' == StateCheck(c))
    ensures Edges.Both(w.(a := w.a.(block := c'.scb)), m, limitA, limitB)
  {
    if c' == c {
      assert w.(a := w.a.(block := c'.scb)) == w;
    } else {
      CheckKeeps(w, m, limitA, limitB, c);
    }
  }

  lemma {:induction false} SentKeeps(e: Ends, m: Edges.Marks, limitA: int, limitB: int, n: nat, em: Emission)
    requires e.a.conn.Valid() && e.a.conn.scb == e.net.a.block && Hostile.Settled(e.net.a.block) && n <= |e.a.conn.tx|
    requires Edges.Both(SentNet(e, n), m, limitA, limitB)
    requires em == EmitPending(SetRecvWindow(e.a.conn.scb, e.a.conn.Free()), n) && !em.Crash?
    ensures var r := Sends(e, FinishSend(e.a.conn, n, em));
            && r.On? && Edges.Both(r.ends.net, m, limitA, limitB) && r.ends.b == e.b
            && r.ends.a.read == e.a.read && r.ends.a.accepted == e.a.accepted
            && r.ends.a.conn.rxCap == e.a.conn.rxCap
  {
    Hostile.EmitInSequence(SetRecvWindow(e.a.conn.scb, e.a.conn.Free()), n);
    SendsIs(e, n, em);
    var c := Handed(e.a.conn, n, em);
    CheckedKeeps(SentNet(e, n), m, limitA, limitB, c, if em.Fault? then c else StateCheck(c));
  }

  lemma {:induction false} SendNetKeeps(e: Ends, m: Edges.Marks, room: nat)
    requires Inv(e, m) && |e.net.a.sent| + |e.a.conn.tx| + 1 < HALF && Sends(e, SendTx(e.a.conn, room)).On?
    ensures var e' := Sends(e, SendTx(e.a.conn, room)).ends;
            && Edges.Both(e'.net, m, Limit(e.a), Limit(e.b)) && e'.b == e.b && Limit(e'.a) == Limit(e.a)
            && e'.a.accepted == e.a.accepted && e'.a.conn.rxCap == e.a.conn.rxCap
  {
    var n := Min(|e.a.conn.tx|, room);
    SentNetKeeps(e, m, n);
    SentKeeps(e, m, Limit(e.a), Limit(e.b), n, EmitPending(SetRecvWindow(e.a.conn.scb, e.a.conn.Free()), n));
  }

  lemma {:induction false} PayloadFromRing(c: Conn, room: nat)
    requires c.Valid() && Hostile.Settled(c.scb)
    ensures SendTx(c, room).1.Emitted? ==> |SendTx(c, room).1.payload| <= |c.tx|
  {
    var n := Min(|c.tx|, room);
    Hostile.EmitInSequence(SetRecvWindow(c.scb, c.Free()), n);
  }

  lemma {:induction false} SendKeeps(e: Ends, m: Edges.Marks, room: nat)
    requires Inv(e, m) && |e.net.a.sent| + |e.a.conn.tx| + 1 < HALF && Sends(e, SendTx(e.a.conn, room)).On?
    ensures Inv(Sends(e, SendTx(e.a.conn, room)).ends, m)
  {
    var r := SendTx(e.a.conn, room);
    SendNetKeeps(e, m, room);
    SentBytes(e, r);
    PayloadFromRing(e.a.conn, room);
    StepKeeps(e.a, SendCall(room));
    StepAccounted(e.a, SendCall(room));
  }

  /** An established side does not panic as it sends. */
  lemma {:induction false} SendGoesOn(e: Ends, m: Edges.Marks, room: nat)
    requires Inv(e, m) && e.a.conn.scb.state.Established?
    ensures Sends(e, SendTx(e.a.conn, room)).On?
  {
    var c := e.a.conn;
    var n := Min(|c.tx|, room);
    Edges.BothWindow(e.net, m, Limit(e.a), Limit(e.b), c.Free());
    var w := Hostile.NextA(e.net, Hostile.SetWindow(Hostile.SideA, c.Free()));
    assert w.a.block == SetRecvWindow(c.scb, c.Free());
    Edges.SendsWithoutPanic(w, m, Limit(e.a), Limit(e.b), n);
    Hostile.EmitInSequence(w.a.block, n);
    SendsIs(e, n, EmitPending(w.a.block, n));
  }

  // Receiving.

  /** No payload that is counted finds the ring full. */
  lemma {:induction false} Fits(e: Ends, m: Edges.Marks, i: nat)
    requires Inv(e, m) && i < |e.net.fromB|
    ensures !RecvRx(e.a.conn, e.net.fromB[i].seg, Hostile.Bytes(e.net.fromB[i].octets)).1.RxFull?
  {
    var p := e.net.fromB[i];
    var payload := Hostile.Bytes(p.octets);
    OverrunIff(e.a, p.seg, payload);
    if RecvRx(e.a.conn, p.seg, payload).1.RxFull? {
      Edges.TakenWithinLimit(e.net, m, Limit(e.a), Limit(e.b), i);
      Edges.BytesLength(e.net.a.got);
      assert false;
    }
  }

  lemma {:induction false} PacketIsPlain(e: Ends, m: Edges.Marks, i: nat)
    requires Inv(e, m) && i < |e.net.fromB|
    ensures Hostile.NoSynRst(e.net.fromB[i].seg.flags)
    ensures |Hostile.Bytes(e.net.fromB[i].octets)| == e.net.fromB[i].seg.dataLen
  {
  }

  /** What an arrival leaves: nothing changed, or what the block makes of the segment, but for the closing check. */
  lemma {:induction false} TakesIs(e: Ends, i: nat) returns (c: Conn, checked: bool)
    requires e.a.conn.Valid() && e.a.conn.scb == e.net.a.block && i < |e.net.fromB| && Takes(e, e.net.fromB[i]).On?
    ensures var e' := Takes(e, e.net.fromB[i]).ends;
            var w := Hostile.NextA(e.net, Hostile.Arrive(Hostile.SideA, i));
            || e' == e
            || (&& e'.b == e.b && c.scb == w.a.block
                && e'.net == if checked then w.(a := w.a.(block := StateCheck(c).scb)) else w)
  {
    var p := e.net.fromB[i];
    c, checked := e.a.conn, false;
    if !c.scb.state.IsClosed() && !IncomingIsKeepalive(c.scb, p.seg) {
      var r := Recv(c.scb, p.seg);
      var w := Hostile.NextA(e.net, Hostile.Arrive(Hostile.SideA, i));
      assert w == Hostile.AfterArrival(e.net, p, r);
      var payload := Hostile.Bytes(p.octets);
      checked := r.err == NoError;
      c := c.(scb := r.block, rx := if checked && p.seg.dataLen > 0 then c.rx + payload else c.rx);
      assert Takes(e, p).ends.net == if checked then w.(a := w.a.(block := StateCheck(c).scb)) else w;
    } else {
      assert e.a.counted + [] == e.a.counted && e.a.accepted + [] == e.a.accepted;
    }
  }

  lemma {:induction false} TakesNetKeeps(e: Ends, m: Edges.Marks, i: nat) returns (m': Edges.Marks)
    requires Inv(e, m) && i < |e.net.fromB| && Takes(e, e.net.fromB[i]).On?
    ensures var e' := Takes(e, e.net.fromB[i]).ends;
            Edges.Both(e'.net, m', Limit(e.a), Limit(e.b)) && e'.b == e.b
  {
    var e' := Takes(e, e.net.fromB[i]).ends;
    var c, checked := TakesIs(e, i);
    m' := m;
    if e' != e {
      m' := Edges.BothArrive(e.net, m, Limit(e.a), Limit(e.b), i);
      if checked {
        CheckKeeps(Hostile.NextA(e.net, Hostile.Arrive(Hostile.SideA, i)), m', Limit(e.a), Limit(e.b), c);
      }
    }
  }

  /** The bytes a session has accepted are those of the octets its block has. */
  lemma {:induction false} TakesBytes(e: Ends, p: Hostile.Pkt)
    requires e.a.conn.Valid() && e.a.accepted == Hostile.Bytes(e.net.a.got) && Takes(e, p).On?
    requires |Hostile.Bytes(p.octets)| == p.seg.dataLen
    ensures var e' := Takes(e, p).ends;
            && e'.a == Took(e.a, p.seg, Hostile.Bytes(p.octets)) && e'.a.accepted == Hostile.Bytes(e'.net.a.got)
            && e'.net.a.sent == e.net.a.sent && e'.a.conn.scb == e'.net.a.block && e'.a.sent == e.a.sent
            && e'.net.b == e.net.b
  {
    Edges.BytesConcat(e.net.a.got, p.octets);
    if p.seg.dataLen == 0 {
      assert Hostile.Bytes(p.octets) == [];
    }
  }

  lemma {:induction false} TakesKeeps(e: Ends, m: Edges.Marks, i: nat) returns (m': Edges.Marks)
    requires Inv(e, m) && i < |e.net.fromB| && Takes(e, e.net.fromB[i]).On?
    ensures Inv(Takes(e, e.net.fromB[i]).ends, m')
  {
    var p := e.net.fromB[i];
    var ev := RecvCall(p.seg, Hostile.Bytes(p.octets));
    PacketIsPlain(e, m, i);
    m' := TakesNetKeeps(e, m, i);
    TakesBytes(e, p);
    StepKeeps(e.a, ev);
    StepAccounted(e.a, ev);
    RingStays(e.a, p.seg, Hostile.Bytes(p.octets));
  }

  lemma {:induction false} RingStays(s: Session, seg: Segment, payload: seq<byte>)
    requires s.conn.Valid()
    ensures Took(s, seg, payload).conn.rxCap == s.conn.rxCap && Took(s, seg, payload).read == s.read
  {
  }

  // ---------------------------------------------------------------------------------------------
  // Every run

  lemma {:induction false} StepA(e: Ends, m: Edges.Marks, ev: Event) returns (m': Edges.Marks)
    requires Inv(e, m) && ev.side.SideA? && Allowed(e, ev)
    ensures !NextA(e, ev).Overran? && (NextA(e, ev).On? ==> Inv(NextA(e, ev).ends, m'))
    ensures NextA(e, ev).Panicked? ==> !e.a.conn.scb.state.Established?
  {
    m' := m;
    match ev {
      case Arrive(_, i) =>
        if i < |e.net.fromB| {
          Fits(e, m, i);
          ArrivesWithoutPanic(e, m, i);
          if Takes(e, e.net.fromB[i]).On? {
            m' := TakesKeeps(e, m, i);
          }
        }
      case User(_, ue) =>
        match ue {
          case Write(b) => WriteKeeps(e, m, b);
          case Read(n) => ReadKeeps(e, m, n);
          case CloseCall => CloseKeeps(e, m);
          case SendCall(room) =>
            if e.a.conn.scb.state.Established? {
              SendGoesOn(e, m, room);
            }
            if Sends(e, SendTx(e.a.conn, room)).On? {
              SendKeeps(e, m, room);
            }
          case RecvCall(_, _) =>
        }
    }
  }

  lemma {:induction false} ArrivesWithoutPanic(e: Ends, m: Edges.Marks, i: nat)
    requires Inv(e, m) && i < |e.net.fromB|
    ensures !Takes(e, e.net.fromB[i]).Panicked?
  {
    PacketIsPlain(e, m, i);
    var b, seg := e.a.conn.scb, e.net.fromB[i].seg;
    if !b.state.IsClosed() {
      NoPanic(b, seg);
    }
  }

  lemma {:induction false} NoPanic(b: Block, seg: Segment)
    requires Hostile.Settled(b) && !b.state.IsClosed() && Hostile.NoSynRst(seg.flags)
    ensures Recv(b, seg).err != PanicUnexpectedState
  {
    Hostile.ValidateInSequence(b, seg);
    match b.state {
      case Established =>
      case FinWait1 =>
      case FinWait2 =>
      case Closing =>
      case CloseWait =>
      case LastAck =>
    }
  }

  lemma {:induction false} SwapInv(e: Ends, m: Edges.Marks)
    requires Inv(e, m)
    ensures Inv(Swap(e), Edges.Marks(m.baseB, m.baseA, m.uB, m.lastB, m.uA, m.lastA))
  {
    assert Hostile.Swap(Hostile.Swap(e.net)) == e.net;
  }

  function Mirror(ev: Event): Event {
    var side := if ev.side.SideA? then Hostile.SideB else Hostile.SideA;
    match ev
    case User(_, e) => User(side, e)
    case Arrive(_, i) => Arrive(side, i)
  }

  lemma {:induction false} MirrorNext(e: Ends, ev: Event)
    requires e.a.conn.Valid() && e.b.conn.Valid()
    ensures NextA(e, Mirror(ev)) == NextA(e, ev) && (Allowed(Swap(e), Mirror(ev)) <==> Allowed(e, ev))
  {
  }

  lemma {:induction false} Step(e: Ends, m: Edges.Marks, ev: Event) returns (m': Edges.Marks)
    requires Inv(e, m) && Allowed(e, ev)
    ensures e.a.conn.Valid() && e.b.conn.Valid()
    ensures !Next(e, ev).Overran? && (Next(e, ev).On? ==> Inv(Next(e, ev).ends, m'))
    ensures Next(e, ev).Panicked? ==> !(if ev.side.SideA? then e.a else e.b).conn.scb.state.Established?
  {
    if ev.side.SideA? {
      m' := StepA(e, m, ev);
    } else {
      SwapInv(e, m);
      MirrorNext(e, ev);
      MirrorNext(Swap(e), ev);
      var n := StepA(Swap(e), Edges.Marks(m.baseB, m.baseA, m.uB, m.lastB, m.uA, m.lastA), Mirror(ev));
      m' := Edges.Marks(n.baseB, n.baseA, n.uB, n.lastB, n.uA, n.lastA);
      if NextA(Swap(e), ev).On? {
        SwapInv(NextA(Swap(e), ev).ends, n);
      }
    }
  }

  /** The run of a list of events from e goes on to its end at e'. */
  ghost predicate Runs(e: Ends, events: seq<Event>, e': Ends)
    decreases |events|
  {
    if events == [] then e == e'
    else
      && Allowed(e, events[0]) && e.a.conn.Valid() && e.b.conn.Valid() && Next(e, events[0]).On?
      && Runs(Next(e, events[0]).ends, events[1..], e')
  }

  lemma {:induction false} RunKeeps(e: Ends, m: Edges.Marks, events: seq<Event>, e': Ends) returns (m': Edges.Marks)
    requires Inv(e, m) && Runs(e, events, e')
    ensures Inv(e', m')
    decreases |events|
  {
    m' := m;
    if events != [] {
      var m1 := Step(e, m, events[0]);
      m' := RunKeeps(Next(e, events[0]).ends, m1, events[1..], e');
    }
  }

  /** An established connection with empty rings, nothing in flight and nothing closed. */
  predicate FreshSide(s: Session, p: Hostile.Peer) {
    && s.conn.Valid() && s.conn.tx == s.conn.rx == [] && !s.conn.closing && s.conn.rxCap <= MAX_WINDOW
    && s.conn.scb.state.Established? && !s.conn.scb.challengeAck
    && s.conn.scb.pending0 == s.conn.scb.pending1 == NO_FLAGS && s.conn.scb.snd.una == s.conn.scb.snd.nxt
    && s.wrote == s.sent == s.counted == s.accepted == s.read == []
    && p == Hostile.Peer(s.conn.scb, [], [])
  }

  /** Two such connections in step, neither granted more than the other's ring holds. */
  predicate Fresh(e: Ends) {
    && FreshSide(e.a, e.net.a) && FreshSide(e.b, e.net.b) && e.net.fromA == e.net.fromB == []
    && e.a.conn.scb.rcv.nxt == e.b.conn.scb.snd.nxt && e.b.conn.scb.rcv.nxt == e.a.conn.scb.snd.nxt
    && e.a.conn.scb.snd.wnd <= e.b.conn.rxCap && e.b.conn.scb.snd.wnd <= e.a.conn.rxCap
  }

  lemma {:induction false} FreshEdge(e: Ends)
    requires Fresh(e)
    ensures Edges.EdgeInv(e.net, e.a.conn.scb.snd.nxt, e.b.conn.scb.snd.nxt, 0, -1, Limit(e.b))
  {
    WrapOfValue(e.a.conn.scb.snd.nxt);
    WrapOfValue(e.b.conn.scb.snd.nxt);
  }

  lemma {:induction false} FreshSession(s: Session, p: Hostile.Peer)
    requires FreshSide(s, p)
    ensures Side(s, p)
  {
  }

  lemma {:induction false} FreshInv(e: Ends) returns (m: Edges.Marks)
    requires Fresh(e)
    ensures Inv(e, m)
  {
    m := Edges.Marks(e.a.conn.scb.snd.nxt, e.b.conn.scb.snd.nxt, 0, -1, 0, -1);
    FreshEdge(e);
    FreshEdge(Swap(e));
    FreshSession(e.a, e.net.a);
    FreshSession(e.b, e.net.b);
  }

  /** What side y has read and buffers is the beginning of what x wrote. */
  lemma {:induction false} InvPrefix(e: Ends, m: Edges.Marks)
    requires Inv(e, m)
    ensures e.b.read + e.b.conn.rx <= e.a.wrote && e.a.read + e.a.conn.rx <= e.b.wrote
  {
    Hostile.BytesPrefix(e.net.b.got, e.net.a.sent);
    Hostile.BytesPrefix(e.net.a.got, e.net.b.sent);
  }

  /** Prefix safety for two connections: whatever the network drops, duplicates and reorders, and whenever the users
      write, read and close, while fewer than 2^31 octets are sent each way: what each user has read, followed by what
      its ring holds, is a prefix of what the other user wrote. No payload that a block counts finds the ring full, and
      no established side panics, in whatever comes next. */
  lemma {:induction false} ReadsAPrefix(e: Ends, events: seq<Event>, e': Ends)
    requires Fresh(e) && Runs(e, events, e')
    ensures e'.b.read + e'.b.conn.rx <= e'.a.wrote && e'.a.read + e'.a.conn.rx <= e'.b.wrote
    ensures e'.a.conn.Valid() && e'.b.conn.Valid()
    ensures forall ev | Allowed(e', ev) ::
              && !Next(e', ev).Overran?
              && (Next(e', ev).Panicked? ==> !(if ev.side.SideA? then e'.a else e'.b).conn.scb.state.Established?)
  {
    var m := FreshInv(e);
    m := RunKeeps(e, m, events, e');
    InvPrefix(e', m);
    forall ev | Allowed(e', ev)
      ensures !Next(e', ev).Overran?
      ensures Next(e', ev).Panicked? ==> !(if ev.side.SideA? then e'.a else e'.b).conn.scb.state.Established?
    {
      var m' := Step(e', m, ev);
    }
  }
}
