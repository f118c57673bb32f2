/** One direction of an established connection over a FIFO queue, in unbounded positions: what holds
    between the sender, the receiver and the segments in flight, and that sending and receiving keep it. */
module Flows {
  import opened SeqNum
  import opened Segments
  import opened Ideal
  import opened Refinement
  import Control

  /** A point in a stream of segments: next sequence number, last acknowledgment number and the
      right edge of the last window advertised. */
  datatype Mark = Mark(seqno: int, ack: int, edge: int)

  function After(s: Seg): Mark {
    Mark(s.seqno + s.dataLen, s.ackno, s.ackno + s.wnd)
  }

  /** The segment continues the stream at m: in sequence, acknowledging no less than before (strictly
      more, if that is all it does), and not pulling back the right edge of the window. */
  predicate Follows(m: Mark, s: Seg) {
    && s.flags == ACK && s.dataLen <= Control.MAX_WINDOW && s.wnd <= Control.MAX_WINDOW
    && s.seqno == m.seqno
    && m.ack <= s.ackno
    && (s.dataLen == 0 ==> m.ack < s.ackno)
    && m.edge <= s.ackno + s.wnd
  }

  ghost predicate Chain(q: seq<Seg>, from: Mark, to: Mark) {
    if q == [] then from == to
    else Follows(from, q[0]) && Chain(q[1..], After(q[0]), to)
  }

  lemma {:induction false} ChainAppend(q: seq<Seg>, from: Mark, to: Mark, s: Seg)
    requires Chain(q, from, to) && Follows(to, s)
    ensures Chain(q + [s], from, After(s))
  {
    if q == [] {
      assert q + [s] == [s];
      assert Chain([s][1..], After(s), After(s));
    } else {
      ChainAppend(q[1..], After(q[0]), to, s);
      assert (q + [s])[1..] == q[1..] + [s];
    }
  }

  lemma {:induction false} ChainMonotone(q: seq<Seg>, from: Mark, to: Mark)
    requires Chain(q, from, to)
    ensures from.seqno <= to.seqno && from.ack <= to.ack && from.edge <= to.edge
  {
    if q != [] {
      ChainMonotone(q[1..], After(q[0]), to);
    }
  }

  /** Octets of sequence space carried by the queue. */
  function Total(q: seq<Seg>): nat {
    if q == [] then 0 else q[0].Len() + Total(q[1..])
  }

  lemma {:induction false} ChainTotal(q: seq<Seg>, from: Mark, to: Mark)
    requires Chain(q, from, to)
    ensures from.seqno + Total(q) == to.seqno
  {
    if q != [] {
      ChainTotal(q[1..], After(q[0]), to);
    }
  }

  /** Where y stands in the stream coming from its peer. */
  function Known(y: IBlock): Mark {
    Mark(y.rcvNxt, y.una, y.una + y.sndWnd)
  }

  /** The block of one side in the data phase. */
  predicate Quiet(x: IBlock) {
    && (x.pending0 == NO_FLAGS || x.pending0 == ACK) && x.pending1 == NO_FLAGS && !x.challengeAck
    && x.rcvWnd <= Control.MAX_WINDOW && x.sndWnd <= Control.MAX_WINDOW
    && x.una <= x.nxt
    && (x.state.Established? ==> 0 <= Room(x))
  }

  /** The direction from x to y: q holds what x has sent and y has not received; ack and edge are the
      acknowledgment number and right window edge that x sent last. An acknowledgment is pending
      only if there is something new to acknowledge. */
  ghost predicate Flow(x: IBlock, y: IBlock, q: seq<Seg>, ack: int, edge: int) {
    && Chain(q, Known(y), Mark(x.nxt, ack, edge))
    && ack <= x.rcvNxt && (x.pending0.ack ==> ack < x.rcvNxt)
    && edge <= x.rcvNxt + x.rcvWnd
  }

  /** Offering: an established block offers a segment that continues its stream, and Send takes it. The
      block may first change its window as long as the advertised right edge does not move back. */
  lemma {:induction false} Emit(x: IBlock, y: IBlock, q: seq<Seg>, ack: int, edge: int, w: Size, n: nat)
    returns (x': IBlock, s: Seg)
    requires Quiet(x) && x.state.Established? && Flow(x, y, q, ack, edge)
    requires w <= Control.MAX_WINDOW && edge <= x.rcvNxt + w
    requires PendingSegment(x.(rcvWnd := w), n).1.Offered?
    ensures PendingSegment(x.(rcvWnd := w), n) == (x.(rcvWnd := w), Offered(s))
    ensures NearOutgoing(x.(rcvWnd := w), s) && Send(x.(rcvWnd := w), s) == Outcome(x', Taken)
    ensures s.dataLen <= n && (n > 0 ==> s.dataLen > 0) && s.flags == ACK
    ensures s.ackno == x.rcvNxt && s.wnd == w
    ensures x' == x.(rcvWnd := w, nxt := x.nxt + s.dataLen, pending0 := NO_FLAGS)
    ensures Quiet(x') && Flow(x', y, q + [s], x.rcvNxt, x.rcvNxt + w)
  {
    var x1 := x.(rcvWnd := w);
    s := PendingSegment(x1, n).1.seg;
    x' := Send(x1, s).block;
    ChainAppend(q, Known(y), Mark(x.nxt, ack, edge), s);
  }

  /** What a receiver in step with its peer may rely on for the segment at the head of the queue. */
  lemma {:induction false} HeadFits(x: IBlock, y: IBlock, q: seq<Seg>, ack: int, edge: int,
                                    q': seq<Seg>, ack': int, edge': int)
    requires Quiet(x) && Quiet(y) && x.state.Established?
    requires Flow(x, y, q, ack, edge) && Flow(y, x, q', ack', edge') && q != []
    ensures InOrder(y, q[0]) && y.una <= q[0].ackno <= x.rcvNxt <= y.nxt
    ensures y.rcvNxt + q[0].dataLen <= edge'
    ensures y.nxt <= y.una + Control.MAX_WINDOW ==> NearIncoming(y, q[0])
  {
    ChainMonotone(q[1..], After(q[0]), Mark(x.nxt, ack, edge));
    ChainMonotone(q', Known(x), Mark(y.nxt, ack', edge'));
  }

  /** Receiving: the head of the queue is taken, both directions are kept, and a pure
      acknowledgment strictly advances what is acknowledged. */
  lemma {:induction false} Deliver(x: IBlock, y: IBlock, q: seq<Seg>, ack: int, edge: int,
                                   q': seq<Seg>, ack': int, edge': int)
    returns (y': IBlock)
    requires Quiet(x) && Quiet(y) && x.state.Established? && y.state.Established?
    requires Flow(x, y, q, ack, edge) && Flow(y, x, q', ack', edge') && q != []
    ensures NearIncoming(y, q[0]) && Recv(y, q[0]) == Outcome(y', Taken)
    ensures y' == y.(pending0 := if q[0].dataLen > 0 then ACK else y.pending0, sndWnd := q[0].wnd,
                     una := q[0].ackno, rcvNxt := y.rcvNxt + q[0].dataLen)
    ensures Quiet(y') && Flow(x, y', q[1..], ack, edge) && Flow(y', x, q', ack', edge')
    ensures q[0].dataLen == 0 ==> y.una < y'.una
  {
    HeadFits(x, y, q, ack, edge, q', ack', edge');
    y' := Recv(y, q[0]).block;
  }

  /** The first segment after the handshake completes it at the passive side; its data is not lost. */
  lemma {:induction false} DeliverFirst(x: IBlock, y: IBlock, q: seq<Seg>, ack: int, edge: int,
                                        q': seq<Seg>, ack': int, edge': int)
    returns (y': IBlock)
    requires Quiet(x) && Quiet(y) && x.state.Established? && y.state.SynRcvd?
    requires y.nxt == y.una + 1 && y.pending0 == NO_FLAGS
    requires Flow(x, y, q, ack, edge) && Flow(y, x, q', ack', edge') && q != []
    requires q[0].ackno == y.nxt
    ensures NearIncoming(y, q[0]) && Recv(y, q[0]) == Outcome(y', Taken)
    ensures y' == y.(state := Established, sndWnd := q[0].wnd,
                     una := q[0].ackno, rcvNxt := y.rcvNxt + q[0].dataLen)
    ensures Quiet(y') && Flow(x, y', q[1..], ack, edge) && Flow(y', x, q', ack', edge')
  {
    HeadFits(x, y, q, ack, edge, q', ack', edge');
    y' := Recv(y, q[0]).block;
  }

  /** Emit, seen at the 32-bit block: it stays idle, or sends a segment that continues its stream; it
      neither panics nor is refused by its own Send. */
  lemma {:induction false} EmitRefined(x: IBlock, y: IBlock, q: seq<Seg>, ack: int, edge: int, w: Size, n: nat)
    returns (sent: bool, x': IBlock, s: Seg)
    requires Quiet(x) && x.state.Established? && Flow(x, y, q, ack, edge)
    requires w <= Control.MAX_WINDOW && edge <= x.rcvNxt + w
    ensures Control.EmitPending(Control.SetRecvWindow(WrapBlock(x), w), n)
            == if sent then Control.Sent(WrapBlock(x'), WrapSeg(s)) else Control.Idle(WrapBlock(x'))
    ensures Quiet(x')
    ensures !sent ==> x' == x.(rcvWnd := w) && Flow(x', y, q, ack, edge)
    ensures sent ==> s.dataLen <= n && (n > 0 ==> s.dataLen > 0) && s.ackno == x.rcvNxt && s.flags == ACK
    ensures sent ==> x' == x.(rcvWnd := w, nxt := x.nxt + s.dataLen, pending0 := NO_FLAGS)
    ensures sent ==> Flow(x', y, q + [s], x.rcvNxt, x.rcvNxt + w)
  {
    var x1 := x.(rcvWnd := w);
    assert Control.SetRecvWindow(WrapBlock(x), w) == WrapBlock(x1);
    PendingRefines(x1, n);
    sent := PendingSegment(x1, n).1.Offered?;
    if sent {
      x', s := Emit(x, y, q, ack, edge, w, n);
      SendRefines(x1, s);
    } else {
      x', s := x1, Seg(0, 0, 0, 0, NO_FLAGS);
    }
  }
}
