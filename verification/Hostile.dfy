/** Two established control blocks over a network that may drop, duplicate and reorder what was sent.
    What a side accepts is always a prefix of what its peer sent. */
module Hostile {
  import opened SeqNum
  import opened Segments
  import opened Control
  import opened Rings

  /** One octet of sequence space. */
  datatype Octet = Data(b: byte) | Fin

  /** A segment actually sent, with what it carries, where that starts in the sender's stream, and how much of the
      peer's stream the sender had accepted by then. */
  datatype Pkt = Pkt(seg: Segment, octets: seq<Octet>, from: nat, acked: nat)

  /** A block with the history of what it has sent and accepted. */
  datatype Peer = Peer(block: Block, sent: seq<Octet>, got: seq<Octet>)

  /** Everything either side ever sent stays deliverable, any number of times and in any order. */
  datatype World = World(a: Peer, b: Peer, fromA: seq<Pkt>, fromB: seq<Pkt>)

  datatype Side = SideA | SideB

  datatype Event =
    | Emit(side: Side, payload: seq<byte>)
    | Arrive(side: Side, i: nat)
    | UserClose(side: Side)
    | SetWindow(side: Side, wnd: Size)

  function Swap(w: World): World {
    World(w.b, w.a, w.fromB, w.fromA)
  }

  function Octets(payload: seq<byte>, fin: bool): seq<Octet> {
    seq(|payload|, i requires 0 <= i < |payload| => Data(payload[i])) + (if fin then [Fin] else [])
  }

  /** What side A sends goes into the network, where it stays. */
  function AfterEmit(w: World, payload: seq<byte>, em: Emission): World {
    match em
    case Sent(b, seg) =>
      if seg.dataLen > |payload| then w
      else
        var octets := Octets(payload[..seg.dataLen], seg.flags.fin);
        w.(a := w.a.(block := b, sent := w.a.sent + octets),
           fromA := w.fromA + [Pkt(seg, octets, |w.a.sent|, |w.a.got|)])
    case Idle(b) => w.(a := w.a.(block := b))
    case Fault(b, _, _) => w.(a := w.a.(block := b))
    case Crash => w
  }

  /** What a segment that reaches side A leaves behind. */
  function AfterArrival(w: World, p: Pkt, r: Result): World {
    w.(a := w.a.(block := r.block, got := if r.err == NoError then w.a.got + p.octets else w.a.got))
  }

  /** What happens at side A. Arrivals at a closed block are discarded, as the connection layer does. */
  function NextA(w: World, e: Event): World {
    match e
    case Emit(_, payload) => AfterEmit(w, payload, EmitPending(w.a.block, |payload|))
    case Arrive(_, i) =>
      if i >= |w.fromB| || w.a.block.state.IsClosed() then w
      else AfterArrival(w, w.fromB[i], Recv(w.a.block, w.fromB[i].seg))
    case UserClose(_) => w.(a := w.a.(block := Close(w.a.block).block))
    case SetWindow(_, wnd) => w.(a := w.a.(block := SetRecvWindow(w.a.block, wnd)))
  }

  function Next(w: World, e: Event): World {
    if e.side.SideA? then NextA(w, e) else Swap(NextA(Swap(w), e))
  }

  /** Fewer than 2^32 octets are sent in each direction. */
  predicate Allowed(w: World, e: Event) {
    e.Emit? ==> |(if e.side.SideA? then w.a else w.b).sent| + |e.payload| + 1 < MODULUS
  }

  predicate Runs(w: World, events: seq<Event>, w': World)
    decreases |events|
  {
    if events == [] then w == w'
    else Allowed(w, events[0]) && Runs(Next(w, events[0]), events[1..], w')
  }

  predicate NoSynRst(f: Flags) {
    !f.syn && !f.rst
  }

  /** A block past the handshake that has seen neither SYN nor RST since. */
  predicate Settled(b: Block) {
    && (b.state.IsSynchronized() || b.state.Closed?)
    && NoSynRst(b.pending0) && NoSynRst(b.pending1) && !b.challengeAck
  }

  /** Two established blocks, each expecting what the other sends next; any windows and any
      acknowledgment state. */
  predicate Start(w: World) {
    && Settled(w.a.block) && w.a.block.state.Established? && Settled(w.b.block) && w.b.block.state.Established?
    && w.a.block.rcv.nxt == w.b.block.snd.nxt && w.b.block.rcv.nxt == w.a.block.snd.nxt
    && w.fromA == [] && w.fromB == []
    && w.a.sent == w.a.got == w.b.sent == w.b.got == []
  }

  // ---------------------------------------------------------------------------------------------
  // One block

  lemma {:induction false} ValidateInSequence(b: Block, seg: Segment)
    requires Settled(b) && !b.state.IsClosed() && NoSynRst(seg.flags)
    ensures var v := ValidateIncoming(b, seg);
            && Settled(v.block) && v.block.snd == b.snd && v.block.rcv == b.rcv
            && (v.err == NoError ==> v.block == b && seg.seqno == b.rcv.nxt)
  {
  }

  lemma {:induction false} HandleInSequence(b: Block, seg: Segment)
    requires Settled(b) && !b.state.IsClosed() && NoSynRst(seg.flags)
    ensures var h := Handle(b, seg);
            && Settled(h.block) && NoSynRst(h.pending)
            && (h.err != NoError ==> h.block == b)
            && (h.block.state.Closed? || (h.block.snd == b.snd && h.block.rcv == b.rcv))
  {
    match b.state {
      case Established =>
      case FinWait1 =>
      case FinWait2 =>
      case Closing =>
      case CloseWait =>
      case LastAck =>
    }
  }

  /** A settled block takes a segment only if it is the next one expected, and then counts all of it;
      otherwise its numbers stay. */
  lemma {:induction false} RecvInSequence(b: Block, seg: Segment)
    requires Settled(b) && !b.state.IsClosed() && NoSynRst(seg.flags)
    ensures var r := Recv(b, seg);
            && Settled(r.block)
            && (r.err == NoError ==> seg.seqno == b.rcv.nxt)
            && (r.block.state.Closed? ||
                (&& r.block.snd.nxt == b.snd.nxt
                 && r.block.rcv.nxt == if r.err == NoError then Add(b.rcv.nxt, seg.Len()) else b.rcv.nxt))
  {
    ValidateInSequence(b, seg);
    if ValidateIncoming(b, seg).err == NoError {
      HandleInSequence(b, seg);
    }
  }

  lemma {:induction false} PendingInSequence(b: Block, n: nat)
    requires Settled(b)
    ensures PendingSegment(b, n).0 == b
    ensures match PendingSegment(b, n).1
            case Offered(seg) =>
              && seg.seqno == b.snd.nxt && seg.dataLen <= n && NoSynRst(seg.flags)
              && (seg.flags.ack ==> seg.ackno == b.rcv.nxt)
            case _ => true
  {
  }

  /** Sending takes a settled block to a settled block. */
  lemma {:induction false} CommitInSequence(b: Block, seg: Segment)
    requires Settled(b) && !b.state.Closed? && NoSynRst(seg.flags)
    ensures var b' := Commit(b, seg);
            && Settled(b') && !b'.state.Closed? && b'.snd == b.snd.(nxt := Add(b.snd.nxt, seg.Len()))
            && b'.rcv.nxt == b.rcv.nxt
  {
    StateInSequence(b.state, seg.flags);
    QueueInSequence(b.pending0, b.pending1, seg.flags);
  }

  lemma {:induction false} StateInSequence(state: State, flags: Flags)
    requires state.IsSynchronized() && NoSynRst(flags)
    ensures StateAfterSend(state, flags).IsSynchronized() && NoSynRst(NewlyPending(state, flags))
  {
  }

  lemma {:induction false} QueueInSequence(p0: Flags, p1: Flags, flags: Flags)
    requires NoSynRst(p0) && NoSynRst(p1)
    ensures NoSynRst(Advance(p0, p1, flags).0) && NoSynRst(Advance(p0, p1, flags).1)
  {
  }

  /** What a settled block sends starts at its next number and acknowledges all it has accepted. */
  predicate InSequence(b: Block, n: nat, em: Emission) {
    match em
    case Sent(b', seg) =>
      && seg.seqno == b.snd.nxt && seg.dataLen <= n && seg.wnd <= MAX_WINDOW
      && NoSynRst(seg.flags) && (seg.flags.ack ==> seg.ackno == b.rcv.nxt)
      && !b.state.Closed? && Settled(b') && !b'.state.Closed?
      && b'.snd == b.snd.(nxt := Add(b.snd.nxt, seg.Len())) && b'.rcv.nxt == b.rcv.nxt
    case Idle(b') => b' == b
    case Fault(b', _, _) => b' == b
    case Crash => true
  }

  lemma {:induction false} EmitInSequence(b: Block, n: nat)
    requires Settled(b)
    ensures InSequence(b, n, EmitPending(b, n))
  {
    PendingInSequence(b, n);
    var o := PendingSegment(b, n).1;
    if o.Offered? && !b.state.Closed? {
      CommitInSequence(b, o.seg);
    }
  }

  // ---------------------------------------------------------------------------------------------
  // One direction

  /** The direction from x to y: everything in the network is a piece of what x sent, both blocks count
      from the same base, and y has accepted a prefix. */
  ghost predicate Direction(x: Peer, y: Peer, q: seq<Pkt>, base: int) {
    && |x.sent| < MODULUS
    && (x.block.state.Closed? || x.block.snd.nxt == Wrap(base + |x.sent|))
    && (y.block.state.Closed? || y.block.rcv.nxt == Wrap(base + |y.got|))
    && y.got <= x.sent
    && forall i :: 0 <= i < |q| ==> Piece(q[i], x.sent, base)
  }

  predicate Piece(p: Pkt, sent: seq<Octet>, base: int) {
    && p.from + |p.octets| <= |sent| && p.octets == sent[p.from..p.from + |p.octets|]
    && p.seg.seqno == Wrap(base + p.from) && NoSynRst(p.seg.flags)
    && p.seg.dataLen + (if p.seg.flags.fin then 1 else 0) == p.seg.Len() == |p.octets|
  }

  ghost predicate Inv(w: World, baseA: int, baseB: int) {
    && Settled(w.a.block) && Settled(w.b.block)
    && Direction(w.a, w.b, w.fromA, baseA) && Direction(w.b, w.a, w.fromB, baseB)
  }

  lemma {:induction false} EmitKeeps(w: World, baseA: int, baseB: int, e: Event)
    requires Inv(w, baseA, baseB) && e.Emit? && e.side.SideA? && Allowed(w, e)
    ensures Inv(NextA(w, e), baseA, baseB)
  {
    EmitInSequence(w.a.block, |e.payload|);
    EmissionKeeps(w, baseA, baseB, e.payload, EmitPending(w.a.block, |e.payload|));
  }

  lemma {:induction false} EmissionKeeps(w: World, baseA: int, baseB: int, payload: seq<byte>, em: Emission)
    requires Inv(w, baseA, baseB) && |w.a.sent| + |payload| + 1 < MODULUS && InSequence(w.a.block, |payload|, em)
    ensures Inv(AfterEmit(w, payload, em), baseA, baseB)
  {
    if em.Sent? {
      Extends(w.a, w.b, w.fromA, baseA, em.block, em.seg, payload, |w.a.got|);
    }
  }

  lemma {:induction false} Extends(x: Peer, y: Peer, q: seq<Pkt>, base: int, b: Block, seg: Segment, payload: seq<byte>,
                                   acked: nat)
    requires Direction(x, y, q, base) && !x.block.state.Closed? && !b.state.Closed?
    requires seg.dataLen <= |payload| && |x.sent| + |payload| + 1 < MODULUS
    requires seg.seqno == x.block.snd.nxt && NoSynRst(seg.flags) && b.snd.nxt == Add(x.block.snd.nxt, seg.Len())
    ensures var octets := Octets(payload[..seg.dataLen], seg.flags.fin);
            Direction(x.(block := b, sent := x.sent + octets), y, q + [Pkt(seg, octets, |x.sent|, acked)], base)
  {
    var octets := Octets(payload[..seg.dataLen], seg.flags.fin);
    assert seg.Len() == |octets|;
    AddIsShift(base + |x.sent|, seg.Len());
    var sent' := x.sent + octets;
    assert Piece(Pkt(seg, octets, |x.sent|, acked), sent', base);
    forall i | 0 <= i < |q|
      ensures Piece(q[i], sent', base)
    {
      assert sent'[q[i].from..q[i].from + |q[i].octets|] == x.sent[q[i].from..q[i].from + |q[i].octets|];
    }
  }

  /** An accepted piece starts exactly where the receiver stands. */
  lemma {:induction false} Absorbs(x: Peer, y: Peer, q: seq<Pkt>, base: int, p: Pkt, b: Block)
    requires Direction(x, y, q, base) && !y.block.state.Closed? && Piece(p, x.sent, base)
    requires p.seg.seqno == y.block.rcv.nxt
    requires b.state.Closed? || b.rcv.nxt == Add(y.block.rcv.nxt, p.seg.Len())
    ensures Direction(x, y.(block := b, got := y.got + p.octets), q, base)
  {
    WrapInjective(base + p.from, base + |y.got|);
    AddIsShift(base + |y.got|, p.seg.Len());
    assert y.got + p.octets == x.sent[..|y.got| + |p.octets|];
  }

  /** A segment that was not accepted leaves both directions as they were. */
  lemma {:induction false} Ignores(w: World, baseA: int, baseB: int, b: Block)
    requires Inv(w, baseA, baseB) && Settled(b)
    requires b.state.Closed? || !w.a.block.state.Closed?
    requires b.state.Closed? || (b.snd.nxt == w.a.block.snd.nxt && b.rcv.nxt == w.a.block.rcv.nxt)
    ensures Inv(w.(a := w.a.(block := b)), baseA, baseB)
  {
  }

  lemma {:induction false} Accepts(w: World, baseA: int, baseB: int, p: Pkt, b: Block)
    requires Inv(w, baseA, baseB) && Settled(b) && !w.a.block.state.Closed?
    requires Piece(p, w.b.sent, baseB) && p.seg.seqno == w.a.block.rcv.nxt
    requires b.state.Closed? || (b.snd.nxt == w.a.block.snd.nxt && b.rcv.nxt == Add(w.a.block.rcv.nxt, p.seg.Len()))
    ensures Inv(w.(a := w.a.(block := b, got := w.a.got + p.octets)), baseA, baseB)
  {
    Absorbs(w.b, w.a, w.fromB, baseB, p, b);
  }

  lemma {:induction false} ArriveKeeps(w: World, baseA: int, baseB: int, e: Event)
    requires Inv(w, baseA, baseB) && e.Arrive?
    ensures Inv(NextA(w, e), baseA, baseB)
  {
    if e.i < |w.fromB| && !w.a.block.state.IsClosed() {
      var p := w.fromB[e.i];
      assert Piece(p, w.b.sent, baseB);
      RecvInSequence(w.a.block, p.seg);
      var r := Recv(w.a.block, p.seg);
      if r.err == NoError {
        Accepts(w, baseA, baseB, p, r.block);
      } else {
        Ignores(w, baseA, baseB, r.block);
      }
    }
  }

  lemma {:induction false} NextAKeeps(w: World, baseA: int, baseB: int, e: Event)
    requires Inv(w, baseA, baseB) && e.side.SideA? && Allowed(w, e)
    ensures Inv(NextA(w, e), baseA, baseB)
  {
    match e {
      case Emit(_, _) => EmitKeeps(w, baseA, baseB, e);
      case Arrive(_, _) => ArriveKeeps(w, baseA, baseB, e);
      case UserClose(_) =>
      case SetWindow(_, _) =>
    }
  }

  /** The same event at the other side. */
  function Mirror(e: Event): Event {
    var side := if e.side.SideA? then SideB else SideA;
    match e
    case Emit(_, p) => Emit(side, p)
    case Arrive(_, i) => Arrive(side, i)
    case UserClose(_) => UserClose(side)
    case SetWindow(_, x) => SetWindow(side, x)
  }

  lemma {:induction false} MirrorNext(w: World, e: Event)
    ensures Next(Swap(w), Mirror(e)) == Swap(Next(w, e)) && (Allowed(Swap(w), Mirror(e)) <==> Allowed(w, e))
    ensures NextA(w, Mirror(e)) == NextA(w, e)
  {
    match e {
      case Emit(_, _) =>
      case Arrive(_, _) =>
      case UserClose(_) =>
      case SetWindow(_, _) =>
    }
  }

  lemma {:induction false} NextKeeps(w: World, baseA: int, baseB: int, e: Event)
    requires Inv(w, baseA, baseB) && Allowed(w, e)
    ensures Inv(Next(w, e), baseA, baseB)
  {
    if e.side.SideA? {
      NextAKeeps(w, baseA, baseB, e);
    } else {
      MirrorNext(w, e);
      NextAKeeps(Swap(w), baseB, baseA, Mirror(e));
    }
  }

  lemma {:induction false} RunsKeepsInv(w: World, baseA: int, baseB: int, events: seq<Event>, w': World)
    requires Inv(w, baseA, baseB) && Runs(w, events, w')
    ensures Inv(w', baseA, baseB)
    decreases |events|
  {
    if events != [] {
      NextKeeps(w, baseA, baseB, events[0]);
      RunsKeepsInv(Next(w, events[0]), baseA, baseB, events[1..], w');
    }
  }

  /** The data bytes of a stretch of sequence space. */
  function Bytes(s: seq<Octet>): seq<byte> {
    if s == [] then [] else (if s[0].Data? then [s[0].b] else []) + Bytes(s[1..])
  }

  lemma {:induction false} BytesPrefix(s: seq<Octet>, t: seq<Octet>)
    requires s <= t
    ensures Bytes(s) <= Bytes(t)
  {
    if s != [] {
      BytesPrefix(s[1..], t[1..]);
    }
  }

  /** Prefix safety: whatever is dropped, duplicated or reordered, and whatever the users close, each
      side has accepted a prefix of the octets, and hence of the bytes, that its peer sent. */
  lemma {:induction false} PrefixSafety(w: World, events: seq<Event>, w': World)
    requires Start(w) && Runs(w, events, w')
    ensures w'.b.got <= w'.a.sent && w'.a.got <= w'.b.sent
    ensures Bytes(w'.b.got) <= Bytes(w'.a.sent) && Bytes(w'.a.got) <= Bytes(w'.b.sent)
  {
    var baseA, baseB := w.a.block.snd.nxt, w.b.block.snd.nxt;
    RunsKeepsInv(w, baseA, baseB, events, w');
    BytesPrefix(w'.b.got, w'.a.sent);
    BytesPrefix(w'.a.got, w'.b.sent);
  }
}
