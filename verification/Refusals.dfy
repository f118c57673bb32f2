/** Why a control block refuses a segment, what it does with a window that has shrunk, and when it panics (control.go),
    in distances from the next number. */
module Refusals {
  import opened SeqNum
  import opened Segments
  import opened Control
  import opened Rings
  import Conns

  // ---------------------------------------------------------------------------------------------
  // The states by name

  lemma StatesByName(s: State)
    ensures s.IsPreestablished() <==> s in {Listen, SynSent, SynRcvd}
    ensures s.IsClosed() <==> s in {Closed, TimeWait}
    ensures s.IsSynchronized() <==>
              s in {Established, FinWait1, FinWait2, State.Closing, TimeWait, CloseWait, LastAck}
    ensures s.IsClosing() <==> s in {FinWait1, FinWait2, State.Closing, TimeWait, CloseWait, LastAck}
  {
  }

  // ---------------------------------------------------------------------------------------------
  // Incoming segments

  /** How far the last octet of a segment lies from a number; an empty segment counts as one octet. */
  function LastFrom(nxt: Value, seg: Segment): nat {
    Sub(seg.Last(), nxt)
  }

  /** Distances tell the window: the first and the last octet lie in [nxt, nxt + wnd) or not. */
  lemma InWindowByDistance(v: Value, nxt: Value, wnd: Size)
    ensures InWindow(v, nxt, wnd) <==> Sub(v, nxt) < wnd
  {
  }

  /** The reasons for which an arrival is refused by the tests on its numbers, each with all its cases. A SYN is not
      tested. An arrival without data at the next number passes a closed window, whatever its flags. */
  lemma {:induction false} IncomingRefusals(b: Block, seg: Segment)
    ensures var e := CheckIncoming(b, seg);
            var first, last := Sub(seg.seqno, b.rcv.nxt), LastFrom(b.rcv.nxt, seg);
            var tested := seg.wnd <= 65535 && b.state != Closed && !seg.flags.syn;
            var probe := b.rcv.wnd == 0 && first == 0;
            && (e == WindowOverflow <==> seg.wnd > 65535)
            && (e == ClosedPipe <==> seg.wnd <= 65535 && b.state == Closed)
            && (e == Err.ZeroWindow <==> tested && probe && seg.dataLen > 0)
            && (e == SeqNotInWindow <==> tested && !probe && first >= b.rcv.wnd)
            && (e == LastNotInWindow <==> tested && !probe && first < b.rcv.wnd <= last)
            && (e == RequireSequential <==> tested && 0 < first < b.rcv.wnd && last < b.rcv.wnd)
            && e in {NoError, WindowOverflow, ClosedPipe, Err.ZeroWindow, SeqNotInWindow, LastNotInWindow,
                     RequireSequential}
  {
    InWindowByDistance(seg.seqno, b.rcv.nxt, b.rcv.wnd);
    InWindowByDistance(seg.Last(), b.rcv.nxt, b.rcv.wnd);
  }

  /** An arrival that passes the tests and is no reset and not dropped for its acknowledgment: who refuses it, and why.
      TimeWait is the one state in which a segment gets this far and makes the program panic. */
  lemma {:induction false} HandlerRefusals(b: Block, seg: Segment)
    requires ValidateIncoming(b, seg).err == NoError
    ensures var e := Recv(b, seg).err;
            var f := seg.flags;
            && (e == ExpectedSyn <==> b.state in {Listen, SynSent} && !f.syn)
            && (e == BadSegAck <==> seg.ackno != Add(b.snd.una, 1) &&
                                    (b.state == SynRcvd || (b.state == SynSent && f.syn && f.ack)))
            && (e == FinWaitExpectedAck <==> b.state == FinWait1 && !f.fin && !f.ack)
            && (e == FinWaitExpectedFinAck <==> b.state == FinWait2 && !(f.fin && f.ack))
            && (e == PanicUnexpectedState <==> b.state == TimeWait)
            && (e != NoError ==> Recv(b, seg).block == b)
  {
    assert !b.state.Closed?;
    assert ValidateIncoming(b, seg).block == b;
    match b.state {
      case Listen =>
      case SynSent =>
      case SynRcvd =>
      case Established =>
      case FinWait1 =>
      case FinWait2 =>
      case Closing =>
      case TimeWait =>
      case CloseWait =>
      case LastAck =>
    }
  }

  /** The connection never hands its block a segment in TimeWait, and so does not panic on receiving. */
  lemma {:induction false} RecvNeverPanics(c: Conns.Conn, seg: Segment, payload: seq<byte>)
    requires c.Valid()
    ensures !Conns.RecvRx(c, seg, payload).1.RecvPanic?
  {
    if !c.scb.state.IsClosed() && ValidateIncoming(c.scb, seg).err == NoError {
      HandlerRefusals(c.scb, seg);
    }
  }

  /** The connection's test for keep-alive segments makes no difference: the block refuses them too, unchanged. */
  lemma {:induction false} KeepaliveRefusedAnyway(c: Conns.Conn, seg: Segment, payload: seq<byte>)
    requires c.Valid() && c.scb.state !in {Closed, TimeWait} && IncomingIsKeepalive(c.scb, seg)
    ensures Conns.RecvRx(c, seg, payload) == (c, Conns.NotAdmitted)
    ensures Conns.FinishRecv(c, Recv(c.scb, seg), seg, payload) == (c, Conns.NotAdmitted)
  {
    IncomingRefusals(c.scb, seg);
  }

  // ---------------------------------------------------------------------------------------------
  // Outgoing segments

  /** The reasons for which a segment to be sent is refused, in the order in which they are looked for. A reset may have
      any number. A segment without data passes a closed window at the next number. */
  lemma {:induction false} OutgoingRefusals(b: Block, seg: Segment)
    ensures var e := Send(b, seg).err;
            var first, last := Sub(seg.seqno, b.snd.nxt), LastFrom(b.snd.nxt, seg);
            var right := b.state != Closed && seg.wnd <= 65535 && (seg.flags.ack ==> seg.ackno == b.rcv.nxt);
            var probe := seg.flags.rst || (b.snd.wnd == 0 && seg.dataLen == 0 && first == 0);
            var finished := seg.dataLen > 0 && b.state in {FinWait1, FinWait2};
            && (e == ClosedPipe <==> b.state == Closed)
            && (e == WindowTooLarge <==> b.state != Closed && seg.wnd > 65535)
            && (e == AckNotNext <==>
                  b.state != Closed && seg.wnd <= 65535 && seg.flags.ack && seg.ackno != b.rcv.nxt)
            && (e == Err.ZeroWindow <==> right && !probe && b.snd.wnd == 0)
            && (e == SeqNotInWindow <==> right && !probe && 0 < b.snd.wnd <= first)
            && (e == ConnectionClosing <==> right && (probe || first < b.snd.wnd) && finished)
            && (e == LastNotInWindow <==> right && !probe && !finished && first < b.snd.wnd <= last)
            && e in {NoError, ClosedPipe, WindowTooLarge, AckNotNext, Err.ZeroWindow, SeqNotInWindow,
                     ConnectionClosing, LastNotInWindow}
  {
    InWindowByDistance(seg.seqno, b.snd.nxt, b.snd.wnd);
    InWindowByDistance(seg.Last(), b.snd.nxt, b.snd.wnd);
  }

  // ---------------------------------------------------------------------------------------------
  // A window that has shrunk

  /** PendingSegment panics exactly when more is in flight than the peer's window has room for, and more is waiting than
      what is left of 2^32 octets after the excess. */
  lemma {:induction false} OfferPanicsIff(b: Block, n: nat)
    ensures PendingSegment(b, n).1.Panic? <==>
              && !b.challengeAck && b.state in {Established, CloseWait}
              && b.snd.InFlight() > b.snd.wnd && n > MODULUS + b.snd.wnd - b.snd.InFlight()
  {
  }

  /** What an established block offers when it has n bytes to send. */
  lemma {:induction false} EstablishedOffers(b: Block, n: nat)
    requires b.state == Established && !b.challengeAck && !b.pending0.syn && !b.pending0.rst
    requires n + 65537 < MODULUS - b.snd.InFlight()
    ensures var o := PendingSegment(b, n).1;
            var over := b.snd.InFlight() > b.snd.wnd;
            && !o.Panic? && PendingSegment(b, n).0 == b
            && (o.Offered? ==>
                  && o.seg.seqno == b.snd.nxt && o.seg.ackno == b.rcv.nxt && o.seg.wnd == b.rcv.wnd
                  && o.seg.flags == b.pending0.Or(ACK)
                  && (over ==> o.seg.dataLen == n)
                  && (!over ==> o.seg.dataLen + b.snd.InFlight() <= b.snd.wnd))
            && (over && n > 0 ==> o.Offered?)
  {
    assert b.pending0.Or(ACK).ack;
  }

  /** An established block never sends beyond the peer's window, unless the peer has taken back part of it so that more
      is in flight than it has room for. Then the unsigned difference wraps around, and the block goes on sending as
      though nothing were in flight: whatever it has that fits a whole window. */
  lemma {:induction false} SendsBeyondWindowIff(b: Block, n: nat)
    requires b.state == Established && !b.challengeAck && b.rcv.wnd <= 65535
    requires !b.pending0.syn && !b.pending0.rst && n + 65537 < MODULUS - b.snd.InFlight()
    ensures var e := EmitPending(b, n);
            e.Sent? && e.seg.dataLen > 0 && b.snd.InFlight() + e.seg.dataLen > b.snd.wnd
            <==> n > 0 && b.snd.InFlight() > b.snd.wnd && n + (if b.pending0.fin then 1 else 0) <= b.snd.wnd
  {
    EstablishedOffers(b, n);
    var o := PendingSegment(b, n).1;
    if o.Offered? {
      OutgoingRefusals(b, o.seg);
      OfferLast(b, o.seg);
    }
  }

  /** With ten octets out in a window of ten, the peer acknowledges one and says that it has room for five: the block
      sends five more, nine octets beyond what it was told. */
  lemma {:induction false} ShrunkWindowExample()
    ensures var b := Block(SendSpace(0, 0, 10, 10), RecvSpace(0, 7, 100), 0, NO_FLAGS, NO_FLAGS, Established, false);
            var r := Recv(b, Segment(7, 1, 0, 5, ACK));
            var e := EmitPending(r.block, 5);
            && r.err == NoError && r.block.snd == SendSpace(0, 1, 10, 5)
            && e.Sent? && e.seg.seqno == 10 && e.seg.dataLen == 5
            && r.block.snd.una + r.block.snd.wnd + 9 == e.block.snd.nxt
  {
    var b := Block(SendSpace(0, 0, 10, 10), RecvSpace(0, 7, 100), 0, NO_FLAGS, NO_FLAGS, Established, false);
    OrNothing(NO_FLAGS);
    assert Recv(b, Segment(7, 1, 0, 5, ACK)) == Result(b.(snd := SendSpace(0, 1, 10, 5)), NoError);
  }

  /** The last octet of what is sent from the next number. */
  lemma OfferLast(b: Block, seg: Segment)
    requires seg.seqno == b.snd.nxt && !seg.flags.syn && seg.dataLen < MODULUS - 1
    ensures LastFrom(b.snd.nxt, seg) ==
            var len := seg.dataLen + (if seg.flags.fin then 1 else 0);
            if len == 0 then 0 else len - 1
  {
  }
}
