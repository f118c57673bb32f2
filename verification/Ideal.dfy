/** A control block over unbounded stream positions: no wrap-around, comparisons are those of the
    integers, and acceptance of a segment is stated directly. Refinement shows that the 32-bit block
    of module Control does the same thing modulo 2^32. */
module Ideal {
  import opened SeqNum
  import opened Segments
  import Control

  datatype Seg = Seg(seqno: int, ackno: int, dataLen: Size, wnd: Size, flags: Flags)
  {
    function Len(): nat {
      dataLen + (if flags.fin then 1 else 0) + (if flags.syn then 1 else 0)
    }
  }

  datatype IBlock = IBlock(iss: int, una: int, nxt: int, sndWnd: Size,
                           irs: int, rcvNxt: int, rcvWnd: Size,
                           rstPtr: int, pending0: Flags, pending1: Flags, state: State, challengeAck: bool)

  /** How the block disposes of an incoming segment. */
  datatype Verdict = Taken | Dropped | Aborted | Refused | Crashed

  datatype Outcome = Outcome(block: IBlock, verdict: Verdict)

  function ClearSnd(b: IBlock, iss: int, wnd: Size): IBlock {
    b.(iss := iss, una := iss, nxt := iss, sndWnd := wnd)
  }

  function ClearRcv(b: IBlock, irs: int): IBlock {
    b.(irs := irs, rcvNxt := irs)
  }

  function CloseAll(b: IBlock): IBlock {
    ClearRcv(ClearSnd(b, 0, 0), 0).(rcvWnd := 0, state := Closed, pending0 := NO_FLAGS, pending1 := NO_FLAGS)
  }

  /** The segment is the next one expected and lies within the window; one that carries no data is
      in order even when the window is closed. */
  predicate InOrder(b: IBlock, s: Seg) {
    && s.seqno == b.rcvNxt
    && (if b.rcvWnd == 0 then s.dataLen == 0 else s.Len() <= b.rcvWnd)
  }

  predicate AcksOld(b: IBlock, s: Seg) {
    s.flags.ack && s.ackno <= b.una
  }

  predicate AcksUnsent(b: IBlock, s: Seg) {
    s.flags.ack && b.nxt < s.ackno
  }

  /** The peer's number with the bits of the program's constant flipped. */
  function Mixed(irs: Value): Value {
    (irs as bv32 ^ 0xbb40_e64d) as int
  }

  function Reset(b: IBlock, s: Seg): Outcome {
    if s.seqno != b.rcvNxt then
      Outcome(b.(challengeAck := true, pending0 := b.pending0.Or(ACK)), Dropped)
    else if b.state.IsPreestablished() then
      Outcome(ClearRcv(ClearSnd(b, b.iss + 100, b.sndWnd), Mixed(Wrap(b.irs)))
              .(pending0 := NO_FLAGS, state := Listen), Dropped)
    else
      Outcome(CloseAll(b), Aborted)
  }

  /** The bookkeeping of a segment that is taken. */
  function Take(b: IBlock, s: Seg, pending: Flags): Outcome {
    Outcome(b.(pending0 := b.pending0.Or(pending), sndWnd := s.wnd,
               una := if s.flags.ack then s.ackno else b.una,
               rcvNxt := b.rcvNxt + s.Len()), Taken)
  }

  function TakeOpening(b: IBlock, s: Seg): Outcome {
    match b.state
    case Listen =>
      if !s.flags.syn then Outcome(b, Refused)
      else Take(ClearRcv(ClearSnd(b, b.iss, s.wnd), s.seqno).(pending0 := SYNACK, state := SynRcvd), s, SYNACK)
    case SynSent =>
      if !s.flags.syn || (s.flags.ack && s.ackno != b.una + 1) then Outcome(b, Refused)
      else if s.flags.ack then Take(ClearRcv(b, s.seqno).(state := Established), s, ACK)
      else Take(ClearRcv(ClearSnd(b, b.iss, s.wnd), s.seqno).(state := SynRcvd), s, SYNACK)
    case _ =>
      if s.ackno != b.una + 1 then Outcome(b, Refused)
      else Take(b.(state := Established), s, NO_FLAGS)
  }

  function TakeSynchronized(b: IBlock, s: Seg): Outcome {
    match b.state
    case Established =>
      if s.flags.fin then Take(b.(state := CloseWait, pending1 := FIN), s, ACK)
      else Take(b, s, if s.dataLen > 0 then ACK else NO_FLAGS)
    case FinWait1 =>
      if !s.flags.fin && !s.flags.ack then Outcome(b, Refused)
      else Take(b.(state := if !s.flags.fin then FinWait2
                            else if s.flags.ack && s.ackno == b.nxt then TimeWait
                            else Closing), s, ACK)
    case FinWait2 =>
      if s.flags.fin && s.flags.ack then Take(b.(state := TimeWait), s, ACK) else Outcome(b, Refused)
    case LastAck => Take(if s.flags.ack then CloseAll(b) else b, s, NO_FLAGS)
    case Closing => Take(if s.flags.ack then b.(state := TimeWait) else b, s, NO_FLAGS)
    case CloseWait => Take(b, s, NO_FLAGS)
    case _ => Outcome(b, Crashed)
  }

  function Recv(b: IBlock, s: Seg): Outcome {
    if s.wnd > 0xffff || b.state.Closed? || !(s.flags.syn || InOrder(b, s)) then
      Outcome(b, Refused)
    else if s.flags.rst then
      Reset(b, s)
    else if b.state.IsPreestablished() then
      if AcksOld(b, s) || AcksUnsent(b, s) then
        Outcome(ClearSnd(b, b.iss, s.wnd).(pending0 := RST, rstPtr := s.ackno), Dropped)
      else TakeOpening(b, s)
    else if b.state.Established? && AcksOld(b, s) && s.dataLen == 0 && !s.flags.fin then
      Outcome(b.(pending0 := b.pending0.And(FIN)), Dropped)
    else if b.state.Established? && AcksUnsent(b, s) then
      Outcome(b.(pending0 := ACK), Dropped)
    else TakeSynchronized(b, s)
  }

  /** The room left in the peer's window. */
  function Room(b: IBlock): int {
    b.una + b.sndWnd - b.nxt
  }

  datatype IOffer = Nothing | Offered(seg: Seg)

  function PendingSegment(b: IBlock, payloadLen: nat): (IBlock, IOffer)
    requires b.una <= b.nxt && 0 <= Room(b)
  {
    if b.challengeAck then
      (b.(challengeAck := false), Offered(Seg(b.nxt, b.rcvNxt, 0, b.rcvWnd, ACK)))
    else
      var wanted := if b.state.Established? || b.state.CloseWait? then payloadLen else 0;
      var control := b.pending0.fin || b.pending0.rst || b.pending0.syn;
      if (wanted == 0 && b.pending0 == NO_FLAGS) || (wanted > 0 && Room(b) == 0 && !control) then (b, Nothing)
      else
        var flags := if b.state.Established? then b.pending0.Or(ACK) else b.pending0;
        var n := if !b.state.Established? then 0 else if wanted <= Room(b) then wanted else Room(b);
        (b, Offered(Seg(if flags.rst then b.rstPtr else b.nxt, if flags.ack then b.rcvNxt else 0,
                        n, b.rcvWnd, flags)))
  }

  /** A segment may go out when it lies in the window counted from the next number to send; one
      without data may also go out at that number when the window is closed. */
  predicate Sendable(b: IBlock, s: Seg) {
    && !b.state.Closed?
    && s.wnd <= 0xffff
    && (s.flags.ack ==> s.ackno == b.rcvNxt)
    && !(s.dataLen > 0 && (b.state.FinWait1? || b.state.FinWait2?))
    && (|| s.flags.rst
        || (b.nxt <= s.seqno < b.nxt + b.sndWnd && s.seqno + s.Len() <= b.nxt + b.sndWnd)
        || (b.sndWnd == 0 && s.dataLen == 0 && s.seqno == b.nxt))
  }

  /** A FIN closes this side; the acknowledgment of the peer's FIN ends a simultaneous close. */
  function StateSent(state: State, f: Flags): State {
    if f.fin && (state.Established? || state.SynRcvd?) then FinWait1
    else if f.fin && state.CloseWait? then LastAck
    else if f.ack && state.Closing? then TimeWait
    else state
  }

  /** When everything that was due first has gone out, what waits behind it is due, but no second FIN. The
      acknowledgment of the peer's FIN makes this side's FIN due, with another acknowledgment. */
  function Dequeue(b: IBlock, f: Flags): IBlock {
    var moved := if !f.HasAll(b.pending0) then b.(pending0 := b.pending0.Without(f))
                 else b.(pending0 := b.pending1.(fin := b.pending1.fin && !f.fin), pending1 := NO_FLAGS);
    if b.state.CloseWait? && f.ack && !f.fin then
      moved.(pending0 := moved.pending0.(fin := true, ack := true))
    else moved
  }

  function Send(b: IBlock, s: Seg): Outcome {
    if !Sendable(b, s) then Outcome(b, Refused)
    else
      Outcome(Dequeue(b, s.flags).(state := StateSent(b.state, s.flags), nxt := b.nxt + s.Len(), rcvWnd := s.wnd),
              Taken)
  }
}

/** The 32-bit control block refines the ideal one. */
module Refinement {
  import opened SeqNum
  import opened Segments
  import Control
  import opened Ideal

  function WrapSeg(s: Seg): (r: Segment) {
    Segment(Wrap(s.seqno), Wrap(s.ackno), s.dataLen, s.wnd, s.flags)
  }

  function WrapBlock(b: IBlock): (r: Control.Block) {
    Control.Block(Control.SendSpace(Wrap(b.iss), Wrap(b.una), Wrap(b.nxt), b.sndWnd),
                  Control.RecvSpace(Wrap(b.irs), Wrap(b.rcvNxt), b.rcvWnd),
                  Wrap(b.rstPtr), b.pending0, b.pending1, b.state, b.challengeAck)
  }

  function VerdictOf(err: Err): Verdict {
    match err
    case NoError => Taken
    case DropSegment => Dropped
    case NetClosed => Aborted
    case PanicUnexpectedState => Crashed
    case _ => Refused
  }

  /** Everything Recv compares is less than half the number space apart (acknowledgments) or less
      than the number space (sequence numbers, which are compared for equality only). */
  predicate NearIncoming(b: IBlock, s: Seg) {
    && s.dataLen + 2 < MODULUS
    && (!s.flags.syn || s.flags.rst ==> -MODULUS < s.seqno - b.rcvNxt < MODULUS)
    && (s.flags.ack || b.state.SynRcvd? ==>
          -HALF < s.ackno - b.una < HALF - 1 && -HALF < s.ackno - b.nxt < HALF)
  }

  lemma LenAgrees(s: Seg)
    requires s.dataLen + 2 < MODULUS
    ensures WrapSeg(s).Len() == s.Len()
  {
  }

  /** The two window tests and the equality test together say: in order. */
  lemma {:induction false} ChecksMeanInOrder(b: IBlock, s: Seg)
    requires NearIncoming(b, s) && !s.flags.syn
    requires s.wnd <= 0xffff && !b.state.Closed?
    ensures Control.CheckIncoming(WrapBlock(b), WrapSeg(s)) == NoError <==> InOrder(b, s)
  {
    LenAgrees(s);
    WrapInjective(s.seqno, b.rcvNxt);
    if s.seqno == b.rcvNxt && s.Len() > 0 {
      LastIsLastOctet(WrapSeg(s), b.rcvNxt);
      SubIsDistance(b.rcvNxt + s.Len() - 1, b.rcvNxt);
      WrapOfValue(s.Len() - 1);
    }
  }

  lemma {:induction false} ScreeningAgrees(b: IBlock, s: Seg)
    requires NearIncoming(b, s) && s.flags.ack
    ensures LessThan(Wrap(b.una), Wrap(s.ackno)) <==> !AcksOld(b, s)
    ensures LessThanEq(Wrap(s.ackno), Wrap(b.nxt)) <==> !AcksUnsent(b, s)
  {
    LessThanIsOrder(b.una, s.ackno);
    LessThanIsOrder(s.ackno, b.nxt);
  }

  lemma {:induction false} AcceptRefines(b: IBlock, s: Seg, pending: Flags)
    requires s.dataLen + 2 < MODULUS
    ensures Control.Accept(WrapBlock(b), WrapSeg(s), pending) == WrapBlock(Take(b, s, pending).block)
  {
    LenAgrees(s);
    AddIsShift(b.rcvNxt, s.Len());
  }

  /** The handler of the current state, followed by the common update, does what the ideal block does. */
  ghost predicate Handles(b: IBlock, s: Seg, o: Outcome) {
    var h := Control.Handle(WrapBlock(b), WrapSeg(s));
    && VerdictOf(h.err) == o.verdict
    && (if h.err == NoError then Control.Accept(h.block, WrapSeg(s), h.pending) == WrapBlock(o.block)
        else h.block == WrapBlock(b) && o.block == b)
  }

  lemma {:induction false} OpeningRefines(b: IBlock, s: Seg)
    requires NearIncoming(b, s) && b.state.IsPreestablished()
    ensures Handles(b, s, TakeOpening(b, s))
  {
    AddIsShift(b.una, 1);
    if s.flags.ack || b.state.SynRcvd? {
      WrapInjective(s.ackno, b.una + 1);
    }
    match b.state {
      case Listen =>
        AcceptRefines(ClearRcv(ClearSnd(b, b.iss, s.wnd), s.seqno).(pending0 := SYNACK, state := SynRcvd), s, SYNACK);
      case SynSent =>
        AcceptRefines(ClearRcv(b, s.seqno).(state := Established), s, ACK);
        AcceptRefines(ClearRcv(ClearSnd(b, b.iss, s.wnd), s.seqno).(state := SynRcvd), s, SYNACK);
      case SynRcvd =>
        AcceptRefines(b.(state := Established), s, NO_FLAGS);
    }
  }

  lemma {:induction false} SynchronizedRefines(b: IBlock, s: Seg)
    requires NearIncoming(b, s) && b.state.IsSynchronized()
    ensures Handles(b, s, TakeSynchronized(b, s))
  {
    if s.flags.ack {
      WrapInjective(s.ackno, b.nxt);
    }
    match b.state {
      case Established =>
        AcceptRefines(b.(state := CloseWait, pending1 := FIN), s, ACK);
        AcceptRefines(b, s, if s.dataLen > 0 then ACK else NO_FLAGS);
      case FinWait1 =>
        AcceptRefines(b.(state := if !s.flags.fin then FinWait2
                                  else if s.flags.ack && s.ackno == b.nxt then TimeWait
                                  else Closing), s, ACK);
      case FinWait2 =>
        AcceptRefines(b.(state := TimeWait), s, ACK);
      case LastAck =>
        AcceptRefines(if s.flags.ack then CloseAll(b) else b, s, NO_FLAGS);
      case Closing =>
        AcceptRefines(if s.flags.ack then b.(state := TimeWait) else b, s, NO_FLAGS);
      case CloseWait =>
        AcceptRefines(b, s, NO_FLAGS);
      case TimeWait =>
    }
  }

  lemma {:induction false} ResetRefines(b: IBlock, s: Seg)
    requires -MODULUS < s.seqno - b.rcvNxt < MODULUS
    ensures var r := Control.HandleRst(WrapBlock(b), Wrap(s.seqno));
            r.block == WrapBlock(Reset(b, s).block) && VerdictOf(r.err) == Reset(b, s).verdict
  {
    WrapInjective(s.seqno, b.rcvNxt);
    AddIsShift(b.iss, Control.RST_JUMP);
    WrapOfValue(Mixed(Wrap(b.irs)));
    WrapOfValue(0);
  }

  /** Receiving: the 32-bit block takes, drops or refuses exactly the segments the ideal block does,
      and ends in the same state modulo 2^32. */
  lemma {:induction false} RecvRefines(b: IBlock, s: Seg)
    requires NearIncoming(b, s)
    ensures var r := Control.Recv(WrapBlock(b), WrapSeg(s));
            r.block == WrapBlock(Recv(b, s).block) && VerdictOf(r.err) == Recv(b, s).verdict
  {
    if s.wnd <= 0xffff && !b.state.Closed? {
      if !s.flags.syn {
        ChecksMeanInOrder(b, s);
      }
      if s.flags.rst {
        ResetRefines(b, s);
      } else {
        if s.flags.ack {
          ScreeningAgrees(b, s);
        }
        if b.state.IsPreestablished() {
          OpeningRefines(b, s);
        } else {
          SynchronizedRefines(b, s);
        }
      }
    }
  }

  /** Offering: as long as no more than a window is in flight, the two blocks offer the same segment
      and the "bad calculation" panic is unreachable. */
  lemma {:induction false} PendingRefines(b: IBlock, n: nat)
    requires b.una <= b.nxt && 0 <= Room(b)
    ensures var r := Control.PendingSegment(WrapBlock(b), n);
            var i := PendingSegment(b, n);
            && r.0 == WrapBlock(i.0)
            && r.1 == (if i.1.Nothing? then Control.NoSegment else Control.Offered(WrapSeg(i.1.seg)))
  {
    SizeofIsDistance(b.una, b.nxt);
    WrapOfValue(0);
  }

  /** Everything Send compares is less than half the number space apart. */
  predicate NearOutgoing(b: IBlock, s: Seg) {
    && s.dataLen < HALF - 0x10000 && b.sndWnd <= HALF
    && (!s.flags.rst ==> -HALF <= s.seqno - b.nxt < 0x10000)
    && (s.flags.ack ==> -MODULUS < s.ackno - b.rcvNxt < MODULUS)
  }

  /** The window tests of an outgoing segment, in positions. */
  lemma {:induction false} OutgoingWindow(b: IBlock, s: Seg)
    requires NearOutgoing(b, s) && !s.flags.rst
    ensures InWindow(Wrap(s.seqno), Wrap(b.nxt), b.sndWnd) <==> b.nxt <= s.seqno < b.nxt + b.sndWnd
    ensures InWindow(WrapSeg(s).Last(), Wrap(b.nxt), b.sndWnd)
            <==> b.nxt <= s.seqno + (if s.Len() == 0 then 0 else s.Len() - 1) < b.nxt + b.sndWnd
    ensures Wrap(s.seqno) == Wrap(b.nxt) <==> s.seqno == b.nxt
  {
    LenAgrees(s);
    InWindowIsInterval(s.seqno, b.nxt, b.sndWnd);
    WrapInjective(s.seqno, b.nxt);
    if s.Len() > 0 {
      LastIsLastOctet(WrapSeg(s), s.seqno);
      InWindowIsInterval(s.seqno + s.Len() - 1, b.nxt, b.sndWnd);
    }
  }

  lemma {:induction false} ChecksMeanSendable(b: IBlock, s: Seg)
    requires NearOutgoing(b, s)
    ensures Control.CheckOutgoing(WrapBlock(b), WrapSeg(s)) == NoError <==> Sendable(b, s)
  {
    if s.flags.ack {
      WrapInjective(s.ackno, b.rcvNxt);
    }
    if !s.flags.rst {
      OutgoingWindow(b, s);
    }
  }

  lemma {:induction false} MovedUp(p0: Flags, p1: Flags, f: Flags)
    ensures Control.Advance(p0, p1, f) ==
            if f.HasAll(p0) then (p1.(fin := p1.fin && !f.fin), NO_FLAGS) else (p0.Without(f), p1)
  {
    assert p0.Without(f) == NO_FLAGS <==> f.HasAll(p0);
  }

  lemma {:induction false} FinAckJoined(p: Flags, state: State, f: Flags)
    ensures p.Or(Control.NewlyPending(state, f)) ==
            if state.CloseWait? && f.ack && !f.fin then p.(fin := true, ack := true) else p
  {
    OrNothing(p);
  }

  lemma {:induction false} QueueRefines(b: IBlock, f: Flags)
    ensures var (p0, p1) := Control.Advance(b.pending0, b.pending1, f);
            Dequeue(b, f) == b.(pending0 := p0.Or(Control.NewlyPending(b.state, f)), pending1 := p1)
  {
    MovedUp(b.pending0, b.pending1, f);
    FinAckJoined(Control.Advance(b.pending0, b.pending1, f).0, b.state, f);
  }

  /** Sending: the two blocks accept the same segments, and have the same pending and in the same state after them. */
  lemma {:induction false} SendRefines(b: IBlock, s: Seg)
    requires NearOutgoing(b, s)
    ensures var r := Control.Send(WrapBlock(b), WrapSeg(s));
            r.block == WrapBlock(Send(b, s).block) && VerdictOf(r.err) == Send(b, s).verdict
  {
    ChecksMeanSendable(b, s);
    LenAgrees(s);
    AddIsShift(b.nxt, s.Len());
    QueueRefines(b, s.flags);
  }
}
