/** Windows over a network that drops, duplicates and reorders: what two established sides may send each other never
    goes beyond the right edge that the other has granted. */
module Edges {
  import opened SeqNum
  import opened Segments
  import opened Control
  import opened Rings
  import opened Hostile
  import opened Acks
  import Draining

  // ---------------------------------------------------------------------------------------------
  // One block whose peer has not closed

  /** At most FIN and ACK. */
  predicate Light(f: Flags) {
    !f.syn && !f.rst && !f.psh && !f.urg && !f.ece && !f.cwr && !f.ns
  }

  /** A side that has not accepted a FIN: established, or waiting for one. */
  predicate Tidy(b: Block) {
    && (b.state.Established? || b.state.FinWait1? || b.state.FinWait2?)
    && Light(b.pending0) && b.pending1 == NO_FLAGS && (!b.state.Established? ==> !b.pending0.fin)
  }

  lemma {:induction false} LightRest(f: Flags)
    requires Light(f) && f != NO_FLAGS && !f.fin
    ensures f.ack
  {
  }

  lemma {:induction false} TidyOffers(b: Block, n: nat)
    requires Settled(b) && Tidy(b)
    ensures match PendingSegment(b, n).1
            case Offered(seg) =>
              && seg.flags.ack && seg.wnd == b.rcv.wnd && Light(seg.flags) && seg.flags.HasAll(b.pending0)
              && seg.flags.fin == b.pending0.fin
            case _ => true
  {
    if b.pending0 != NO_FLAGS && !b.pending0.fin {
      LightRest(b.pending0);
    }
  }

  lemma {:induction false} TidyCommits(b: Block, seg: Segment)
    requires Settled(b) && Tidy(b) && seg.flags.ack && Light(seg.flags) && seg.flags.HasAll(b.pending0)
    requires seg.flags.fin ==> b.state.Established?
    ensures Tidy(Commit(b, seg)) && Commit(b, seg).snd.wnd == b.snd.wnd
    ensures Commit(b, seg).state.Established? <==> b.state.Established? && !seg.flags.fin
  {
    WithoutAll(b.pending0, seg.flags);
    WithoutAll(NO_FLAGS, seg.flags.And(FIN));
    OrNothing(NO_FLAGS);
  }

  /** What such a side sends has ACK and its receive window. */
  predicate TidySent(b: Block, em: Emission) {
    em.Sent? ==>
      && em.seg.flags.ack && em.seg.wnd == b.rcv.wnd && Tidy(em.block) && em.block.snd.wnd == b.snd.wnd
      && (em.block.state.Established? <==> b.state.Established? && !em.seg.flags.fin)
  }

  lemma {:induction false} TidyEmits(b: Block, n: nat)
    requires Settled(b) && Tidy(b)
    ensures TidySent(b, EmitPending(b, n))
  {
    TidyOffers(b, n);
    PendingInSequence(b, n);
    var o := PendingSegment(b, n).1;
    if o.Offered? {
      TidyCommits(b, o.seg);
    }
  }

  /** While no more than a window is in flight, what is sent fits the rest of it. */
  lemma {:induction false} EmitsWithinRoom(b: Block, n: nat)
    requires Settled(b) && b.state.Established? && b.snd.InFlight() <= b.snd.wnd
    ensures EmitPending(b, n).Sent? ==> EmitPending(b, n).seg.dataLen <= b.snd.wnd - b.snd.InFlight()
  {
  }

  lemma {:induction false} TidyScreens(b: Block, seg: Segment)
    requires Settled(b) && Tidy(b) && NoSynRst(seg.flags)
    ensures Tidy(ValidateIncoming(b, seg).block)
  {
  }

  lemma {:induction false} TidyHandles(b: Block, seg: Segment)
    requires Settled(b) && Tidy(b) && NoSynRst(seg.flags)
    ensures var h := Handle(b, seg);
            && Light(h.pending) && !h.pending.fin
            && (!seg.flags.fin || h.block.state.Established? ==> Tidy(h.block))
  {
    match b.state {
      case Established =>
      case FinWait1 =>
      case FinWait2 =>
    }
  }

  /** A segment without FIN leaves such a side one. */
  lemma {:induction false} TidyTakes(b: Block, seg: Segment)
    requires Settled(b) && Tidy(b) && NoSynRst(seg.flags)
    ensures var r := Recv(b, seg);
            && (!seg.flags.fin || r.block.state.Established? ==> Tidy(r.block))
            && (r.block.state.Established? ==> r.block.snd.wnd == if r.err == NoError then seg.wnd else b.snd.wnd)
  {
    ValidateInSequence(b, seg);
    HandleInSequence(b, seg);
    TidyScreens(b, seg);
    TidyHandles(b, seg);
  }

  lemma {:induction false} TidyCloses(b: Block)
    requires Tidy(b)
    ensures Tidy(Close(b).block) && Close(b).block.snd == b.snd && Close(b).block.rcv == b.rcv
    ensures Close(b).block.state == b.state
  {
  }

  // ---------------------------------------------------------------------------------------------
  // One direction

  /** The right edge that a packet grants, in the stream it acknowledges. */
  function Edge(p: Pkt): int {
    p.acked + p.seg.wnd
  }

  /** The packets of a side whose peer has not closed: all acknowledge, and the edges they grant never retreat. */
  predicate Grants(q: seq<Pkt>, limit: int) {
    && (forall i :: 0 <= i < |q| ==> q[i].seg.flags.ack && Edge(q[i]) <= limit)
    && (forall i, j :: 0 <= i < j < |q| ==> Edge(q[i]) <= Edge(q[j]))
  }

  /** Side x stands at position u with the window of packet number last of q, or at its first values if that is -1. */
  predicate Windowed(x: Peer, q: seq<Pkt>, u: int, last: int) {
    && -1 <= last < |q|
    && (last >= 0 ==>
          && u == q[last].acked && x.block.snd.wnd == q[last].seg.wnd
          && q[last].from + |q[last].octets| <= |x.got|)
    && (last == -1 ==> forall i :: 0 <= i < |q| ==> u + x.block.snd.wnd <= Edge(q[i]))
  }

  /** While x is established: it has not closed, its peer y grants edges up to limit, and x has sent no more than the
      edge it knows of. */
  predicate Edged(x: Peer, y: Peer, q: seq<Pkt>, u: int, last: int, limit: int) {
    && Fin !in x.sent && Tidy(x.block) && Tidy(y.block) && 0 <= u
    && Grants(q, limit) && Windowed(x, q, u, last)
    && |x.sent| <= u + x.block.snd.wnd <= limit
  }

  /** Data in the network ends within the limit, and a FIN is an octet that is not a byte. */
  predicate Bounded(p: seq<Pkt>, limit: int) {
    forall i :: 0 <= i < |p| ==>
      && (p[i].seg.dataLen > 0 ==> p[i].from + p[i].seg.dataLen <= limit)
      && (p[i].seg.flags.fin <==> Fin in p[i].octets) && |Bytes(p[i].octets)| == p[i].seg.dataLen
  }

  /** The direction from A to B, where B may be sent what lies before limit. */
  ghost predicate EdgeInv(w: World, baseA: int, baseB: int, u: int, last: int, limit: int) {
    && AckInv(w, baseA, baseB, u) && Bounded(w.fromA, limit)
    && (w.a.block.state.Established? ==> Edged(w.a, w.b, w.fromB, u, last, limit))
  }

  lemma {:induction false} LimitGrows(w: World, baseA: int, baseB: int, u: int, last: int, limit: int, limit': int)
    requires EdgeInv(w, baseA, baseB, u, last, limit) && limit <= limit'
    ensures EdgeInv(w, baseA, baseB, u, last, limit')
  {
  }

  // What happens at the side that sends.

  lemma {:induction false} OctetsFin(payload: seq<byte>, fin: bool)
    ensures Fin in Octets(payload, fin) <==> fin
    ensures |Octets(payload, fin)| == |payload| + if fin then 1 else 0
    ensures Bytes(Octets(payload, fin)) == payload
  {
    if fin {
      assert Octets(payload, fin)[|payload|] == Fin;
    }
    BytesOfOctets(payload, fin);
  }

  lemma {:induction false} BytesOfOctets(payload: seq<byte>, fin: bool)
    ensures Bytes(Octets(payload, fin)) == payload
    decreases |payload|
  {
    var s := Octets(payload, fin);
    if payload == [] {
      if fin {
        assert s == [Fin] && s[1..] == [];
      }
    } else {
      BytesOfOctets(payload[1..], fin);
      assert s[1..] == Octets(payload[1..], fin);
      assert [payload[0]] + payload[1..] == payload;
    }
  }

  lemma {:induction false} BytesConcat(s: seq<Octet>, t: seq<Octet>)
    ensures Bytes(s + t) == Bytes(s) + Bytes(t)
  {
    if s == [] {
      assert s + t == t;
    } else {
      assert (s + t)[1..] == s[1..] + t;
      BytesConcat(s[1..], t);
    }
  }

  lemma {:induction false} BytesLength(s: seq<Octet>)
    ensures |Bytes(s)| <= |s| && (Fin !in s ==> |Bytes(s)| == |s|)
  {
    if s != [] {
      BytesLength(s[1..]);
    }
  }

  lemma {:induction false} OwnSends(w: World, baseA: int, baseB: int, u: int, last: int, limit: int,
                                    payload: seq<byte>, em: Emission)
    requires EdgeInv(w, baseA, baseB, u, last, limit) && InSequence(w.a.block, |payload|, em) && em.Sent?
    requires AckInv(AfterEmit(w, payload, em), baseA, baseB, u)
    requires if w.a.block.state.Established? then
               && TidySent(w.a.block, em) && |w.a.sent| + em.seg.dataLen <= u + w.a.block.snd.wnd
             else em.seg.dataLen == 0 && !em.block.state.Established?
    ensures EdgeInv(AfterEmit(w, payload, em), baseA, baseB, u, last, limit)
  {
    OctetsFin(payload[..em.seg.dataLen], em.seg.flags.fin);
  }

  lemma {:induction false} SentFits(w: World, baseA: int, baseB: int, u: int, last: int, limit: int, n: nat)
    requires EdgeInv(w, baseA, baseB, u, last, limit) && w.a.block.state.Established?
    ensures var em := EmitPending(w.a.block, n);
            em.Sent? ==> TidySent(w.a.block, em) && |w.a.sent| + em.seg.dataLen <= u + w.a.block.snd.wnd
  {
    TidyEmits(w.a.block, n);
    SizeofIsDistance(baseA + u, baseA + |w.a.sent|);
    EmitsWithinRoom(w.a.block, n);
  }

  lemma {:induction false} OwnEmitted(w: World, baseA: int, baseB: int, u: int, last: int, limit: int,
                                      payload: seq<byte>,
                                      em: Emission)
    requires EdgeInv(w, baseA, baseB, u, last, limit) && em == EmitPending(w.a.block, |payload|)
    requires InSequence(w.a.block, |payload|, em) && AckInv(AfterEmit(w, payload, em), baseA, baseB, u)
    ensures EdgeInv(AfterEmit(w, payload, em), baseA, baseB, u, last, limit)
  {
    if em.Sent? {
      if w.a.block.state.Established? {
        SentFits(w, baseA, baseB, u, last, limit, |payload|);
      } else {
        Draining.OthersSend(w.a.block, |payload|);
      }
      OwnSends(w, baseA, baseB, u, last, limit, payload, em);
    }
  }

  lemma {:induction false} OwnEmission(w: World, baseA: int, baseB: int, u: int, last: int, limit: int,
                                       payload: seq<byte>)
    requires EdgeInv(w, baseA, baseB, u, last, limit) && |w.a.sent| + |payload| + 1 < MODULUS
    ensures EdgeInv(NextA(w, Emit(SideA, payload)), baseA, baseB, u, last, limit)
  {
    EmitStep(w, baseA, baseB, u, payload);
    EmitInSequence(w.a.block, |payload|);
    OwnEmitted(w, baseA, baseB, u, last, limit, payload, EmitPending(w.a.block, |payload|));
  }

  /** An accepted packet is later than the one that x stands at. */
  lemma {:induction false} LaterThanLast(x: Peer, y: Peer, q: seq<Pkt>, base: int, u: int, last: int, i: nat)
    requires Acknowledges(y, q, base) && Windowed(x, q, u, last) && i < |q| && q[i].from == |x.got|
    requires q[i].octets == [] ==> u < q[i].acked
    ensures last < i
  {
  }

  lemma {:induction false} OwnTakes(w: World, baseA: int, baseB: int, u: int, last: int, limit: int, i: nat, r: Result)
    requires EdgeInv(w, baseA, baseB, u, last, limit) && w.a.block.state.Established? && i < |w.fromB|
    requires r.err == NoError && r.block.state.Established? && w.fromB[i].from == |w.a.got| && w.fromB[i].acked >= u
    requires w.fromB[i].octets == [] ==> u < w.fromB[i].acked
    requires AckInv(AfterArrival(w, w.fromB[i], r), baseA, baseB, w.fromB[i].acked)
    requires Tidy(r.block) && r.block.snd.wnd == w.fromB[i].seg.wnd
    ensures EdgeInv(AfterArrival(w, w.fromB[i], r), baseA, baseB, w.fromB[i].acked, i, limit)
  {
    LaterThanLast(w.a, w.b, w.fromB, baseA, u, last, i);
    assert u + w.a.block.snd.wnd <= Edge(w.fromB[i]);
  }

  /** A pure acknowledgment that is accepted acknowledges something new. */
  lemma {:induction false} PureIsNew(w: World, baseA: int, baseB: int, u: int, i: nat)
    requires AckInv(w, baseA, baseB, u) && w.a.block.state.Established? && i < |w.fromB| && |w.a.sent| < HALF
    requires w.fromB[i].octets == [] && w.fromB[i].seg.flags.ack && Takes(w.a.block, w.fromB[i].seg)
    ensures u < w.fromB[i].acked
  {
    var b, p := w.a.block, w.fromB[i];
    TakenAt(w, baseA, baseB, i);
    PureAckPosition(b, p.seg, baseA, u, p.acked, |w.a.sent|);
    if u == p.acked {
      LessThanIsOrder(baseA + u, baseA + p.acked);
      assert false;
    }
  }

  /** An arrival that takes the side out of Established, or finds it past that. */
  lemma {:induction false} ClosingArrival(w: World, baseA: int, baseB: int, u: int, last: int, limit: int, i: nat)
    returns (u': int)
    requires EdgeInv(w, baseA, baseB, u, last, limit) && !NextA(w, Arrive(SideA, i)).a.block.state.Established?
    ensures EdgeInv(NextA(w, Arrive(SideA, i)), baseA, baseB, u', last, limit)
  {
    u' := ArriveStep(w, baseA, baseB, u, i);
    ArrivalLeaves(w, i);
  }

  lemma {:induction false} ArrivalLeaves(w: World, i: nat)
    ensures var w' := NextA(w, Arrive(SideA, i));
            w'.fromA == w.fromA && w'.fromB == w.fromB && w'.b == w.b && w'.a.sent == w.a.sent
    ensures i < |w.fromB| && !w.a.block.state.IsClosed() ==>
              NextA(w, Arrive(SideA, i)) == AfterArrival(w, w.fromB[i], Recv(w.a.block, w.fromB[i].seg))
    ensures i >= |w.fromB| || w.a.block.state.IsClosed() ==> NextA(w, Arrive(SideA, i)) == w
  {
  }

  lemma {:induction false} OwnArrival(w: World, baseA: int, baseB: int, u: int, last: int, limit: int, i: nat)
    returns (u': int, last': int)
    requires EdgeInv(w, baseA, baseB, u, last, limit) && |w.a.sent| < HALF
    ensures EdgeInv(NextA(w, Arrive(SideA, i)), baseA, baseB, u', last', limit)
  {
    u', last' := u, last;
    ArrivalLeaves(w, i);
    if i < |w.fromB| && !w.a.block.state.IsClosed() {
      var r := Recv(w.a.block, w.fromB[i].seg);
      if r.block.state.Established? {
        WasEstablished(w, baseA, baseB, i);
        u', last' := EstablishedArrival(w, baseA, baseB, u, last, limit, i, r);
      } else {
        u' := ClosingArrival(w, baseA, baseB, u, last, limit, i);
      }
    }
  }

  lemma {:induction false} WasEstablished(w: World, baseA: int, baseB: int, i: nat)
    requires Inv(w, baseA, baseB) && i < |w.fromB| && !w.a.block.state.IsClosed()
    requires Recv(w.a.block, w.fromB[i].seg).block.state.Established?
    ensures w.a.block.state.Established?
  {
    TakenAt(w, baseA, baseB, i);
    Draining.RecvMoves(w.a.block, w.fromB[i].seg);
  }

  lemma {:induction false} EstablishedArrival(w: World, baseA: int, baseB: int, u: int, last: int, limit: int, i: nat,
                                              r: Result)
    returns (u': int, last': int)
    requires EdgeInv(w, baseA, baseB, u, last, limit) && |w.a.sent| < HALF && i < |w.fromB|
    requires w.a.block.state.Established? && r == Recv(w.a.block, w.fromB[i].seg) && r.block.state.Established?
    ensures EdgeInv(AfterArrival(w, w.fromB[i], r), baseA, baseB, u', last', limit)
  {
    var b, p := w.a.block, w.fromB[i];
    TakenAt(w, baseA, baseB, i);
    RecvInSequence(b, p.seg);
    RecvUna(b, p.seg);
    TidyTakes(b, p.seg);
    ArriveKeeps(w, baseA, baseB, Arrive(SideA, i));
    u' := Arrival(w, baseA, baseB, u, i, r);
    last' := last;
    if r.err == NoError {
      last' := i;
      if p.octets == [] {
        PureIsNew(w, baseA, baseB, u, i);
      }
      OwnTakes(w, baseA, baseB, u, last, limit, i, r);
    }
  }

  lemma {:induction false} OwnClose(w: World, baseA: int, baseB: int, u: int, last: int, limit: int)
    requires EdgeInv(w, baseA, baseB, u, last, limit)
    ensures EdgeInv(NextA(w, UserClose(SideA)), baseA, baseB, u, last, limit)
  {
    var u' := Step(w, baseA, baseB, u, UserClose(SideA));
    if w.a.block.state.Established? {
      TidyCloses(w.a.block);
    }
  }

  lemma {:induction false} OwnWindow(w: World, baseA: int, baseB: int, u: int, last: int, limit: int, wnd: Size)
    requires EdgeInv(w, baseA, baseB, u, last, limit)
    ensures EdgeInv(NextA(w, SetWindow(SideA, wnd)), baseA, baseB, u, last, limit)
  {
    NextKeeps(w, baseA, baseB, SetWindow(SideA, wnd));
  }

  // What happens at the side that receives.

  lemma {:induction false} GrantsAppend(q: seq<Pkt>, limit: int, p: Pkt)
    requires Grants(q, limit) && p.seg.flags.ack && Edge(p) == limit
    ensures Grants(q + [p], limit)
  {
  }

  lemma {:induction false} PeerSends(w: World, baseA: int, baseB: int, u: int, last: int, limit: int,
                                     payload: seq<byte>, em: Emission)
    requires EdgeInv(w, baseA, baseB, u, last, limit) && InSequence(w.b.block, |payload|, em) && em.Sent?
    requires AckInv(Swap(AfterEmit(Swap(w), payload, em)), baseA, baseB, u)
    requires w.a.block.state.Established? ==>
               TidySent(w.b.block, em) && w.b.block.rcv.wnd == limit - |w.b.got|
    ensures EdgeInv(Swap(AfterEmit(Swap(w), payload, em)), baseA, baseB, u, last, limit)
  {
    var p := Pkt(em.seg, Octets(payload[..em.seg.dataLen], em.seg.flags.fin), |w.b.sent|, |w.b.got|);
    if w.a.block.state.Established? {
      GrantsAppend(w.fromB, limit, p);
    }
  }

  lemma {:induction false} PeerEmission(w: World, baseA: int, baseB: int, u: int, last: int, limit: int,
                                        payload: seq<byte>)
    requires EdgeInv(w, baseA, baseB, u, last, limit) && |w.b.sent| + |payload| + 1 < MODULUS
    requires w.a.block.state.Established? ==> w.b.block.rcv.wnd == limit - |w.b.got|
    ensures EdgeInv(Swap(NextA(Swap(w), Emit(SideB, payload))), baseA, baseB, u, last, limit)
  {
    var em := EmitPending(w.b.block, |payload|);
    PeerEmitStep(w, baseA, baseB, u, payload);
    EmitInSequence(w.b.block, |payload|);
    if em.Sent? {
      if w.a.block.state.Established? {
        TidyEmits(w.b.block, |payload|);
      }
      PeerSends(w, baseA, baseB, u, last, limit, payload, em);
    }
  }

  lemma {:induction false} PeerArrival(w: World, baseA: int, baseB: int, u: int, last: int, limit: int, i: nat)
    requires EdgeInv(w, baseA, baseB, u, last, limit)
    ensures EdgeInv(Swap(NextA(Swap(w), Arrive(SideB, i))), baseA, baseB, u, last, limit)
  {
    PeerArriveStep(w, baseA, baseB, u, i);
    if i < |w.fromA| && !w.b.block.state.IsClosed() && w.a.block.state.Established? {
      var p := w.fromA[i];
      assert Piece(p, w.a.sent, baseA);
      assert p.seg.flags.fin ==> Fin in w.a.sent;
      TidyTakes(w.b.block, p.seg);
    }
  }

  lemma {:induction false} PeerClose(w: World, baseA: int, baseB: int, u: int, last: int, limit: int)
    requires EdgeInv(w, baseA, baseB, u, last, limit)
    ensures EdgeInv(Swap(NextA(Swap(w), UserClose(SideB))), baseA, baseB, u, last, limit)
  {
    PeerStep(w, baseA, baseB, u, UserClose(SideB));
    if w.a.block.state.Established? {
      TidyCloses(w.b.block);
    }
  }

  lemma {:induction false} PeerWindow(w: World, baseA: int, baseB: int, u: int, last: int, limit: int, wnd: Size)
    requires EdgeInv(w, baseA, baseB, u, last, limit)
    ensures EdgeInv(Swap(NextA(Swap(w), SetWindow(SideB, wnd))), baseA, baseB, u, last, limit)
  {
    PeerStep(w, baseA, baseB, u, SetWindow(SideB, wnd));
  }

  // ---------------------------------------------------------------------------------------------
  // Both directions

  /** Where both sides stand. */
  datatype Marks = Marks(baseA: int, baseB: int, uA: int, lastA: int, uB: int, lastB: int)

  ghost predicate Both(w: World, m: Marks, limitA: int, limitB: int) {
    && EdgeInv(w, m.baseA, m.baseB, m.uA, m.lastA, limitB)
    && EdgeInv(Swap(w), m.baseB, m.baseA, m.uB, m.lastB, limitA)
  }

  lemma {:induction false} BothWindow(w: World, m: Marks, limitA: int, limitB: int, wnd: Size)
    requires Both(w, m, limitA, limitB)
    ensures Both(NextA(w, SetWindow(SideA, wnd)), m, limitA, limitB)
  {
    OwnWindow(w, m.baseA, m.baseB, m.uA, m.lastA, limitB, wnd);
    PeerWindow(Swap(w), m.baseB, m.baseA, m.uB, m.lastB, limitA, wnd);
  }

  lemma {:induction false} BothEmit(w: World, m: Marks, limitA: int, limitB: int, payload: seq<byte>)
    requires Both(w, m, limitA, limitB) && |w.a.sent| + |payload| + 1 < MODULUS
    requires w.b.block.state.Established? ==> w.a.block.rcv.wnd == limitA - |w.a.got|
    ensures Both(NextA(w, Emit(SideA, payload)), m, limitA, limitB)
  {
    OwnEmission(w, m.baseA, m.baseB, m.uA, m.lastA, limitB, payload);
    PeerEmission(Swap(w), m.baseB, m.baseA, m.uB, m.lastB, limitA, payload);
  }

  lemma {:induction false} BothArrive(w: World, m: Marks, limitA: int, limitB: int, i: nat) returns (m': Marks)
    requires Both(w, m, limitA, limitB) && |w.a.sent| < HALF
    ensures Both(NextA(w, Arrive(SideA, i)), m', limitA, limitB)
  {
    var u, last := OwnArrival(w, m.baseA, m.baseB, m.uA, m.lastA, limitB, i);
    PeerArrival(Swap(w), m.baseB, m.baseA, m.uB, m.lastB, limitA, i);
    m' := m.(uA := u, lastA := last);
  }

  lemma {:induction false} BothClose(w: World, m: Marks, limitA: int, limitB: int)
    requires Both(w, m, limitA, limitB)
    ensures Both(NextA(w, UserClose(SideA)), m, limitA, limitB)
  {
    OwnClose(w, m.baseA, m.baseB, m.uA, m.lastA, limitB);
    PeerClose(Swap(w), m.baseB, m.baseA, m.uB, m.lastB, limitA);
  }

  /** A packet that is taken ends within the limit, and everything before it has been taken. */
  lemma {:induction false} TakenWithinLimit(w: World, m: Marks, limitA: int, limitB: int, i: nat)
    requires Both(w, m, limitA, limitB) && i < |w.fromB| && !w.a.block.state.IsClosed()
    requires Recv(w.a.block, w.fromB[i].seg).err == NoError
    ensures w.fromB[i].seg.dataLen > 0 ==> |w.a.got| + w.fromB[i].seg.dataLen <= limitA
    ensures |Bytes(w.fromB[i].octets)| == w.fromB[i].seg.dataLen
  {
    TakenAt(w, m.baseA, m.baseB, i);
    RecvInSequence(w.a.block, w.fromB[i].seg);
  }

  /** While its peer is established a side has accepted bytes only. */
  lemma {:induction false} GotBytesOnly(w: World, m: Marks, limitA: int, limitB: int)
    requires Both(w, m, limitA, limitB) && w.b.block.state.Established?
    ensures |Bytes(w.a.got)| == |w.a.got|
  {
    assert Fin !in w.b.sent;
    assert w.a.got <= w.b.sent;
    BytesLength(w.a.got);
  }

  /** An established side does not panic as it sends. */
  lemma {:induction false} SendsWithoutPanic(w: World, m: Marks, limitA: int, limitB: int, n: nat)
    requires Both(w, m, limitA, limitB) && w.a.block.state.Established?
    ensures !EmitPending(w.a.block, n).Crash?
  {
    SizeofIsDistance(m.baseA + m.uA, m.baseA + |w.a.sent|);
  }
}
