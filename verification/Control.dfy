/** The Transmission Control Block as a value and its operations as functions
    (control.go, control_user.go). The class in ControlBlocks is proved against these. */
module Control {
  import opened SeqNum
  import opened Segments

  const MAX_WINDOW: int := 65535
  const RST_JUMP: Size := 100

  datatype SendSpace = SendSpace(iss: Value, una: Value, nxt: Value, wnd: Size)
  {
    function InFlight(): Size {
      Sizeof(una, nxt)
    }

    /** Unsigned: underflows when more than a window is in flight. */
    function MaxSend(): Size {
      Sub(wnd, InFlight())
    }
  }

  datatype RecvSpace = RecvSpace(irs: Value, nxt: Value, wnd: Size)

  datatype Block = Block(snd: SendSpace, rcv: RecvSpace, rstPtr: Value,
                         pending0: Flags, pending1: Flags, state: State, challengeAck: bool)

  /** A block after an operation, and how the operation ended. */
  datatype Result = Result(block: Block, err: Err)

  /** What PendingSegment offers; Panic is its "bad calculation" panic. */
  datatype Offer = NoSegment | Offered(seg: Segment) | Panic

  function ResetSnd(iss: Value, wnd: Size): SendSpace {
    SendSpace(iss, iss, iss, wnd)
  }

  function ResetRcv(wnd: Size, irs: Value): RecvSpace {
    RecvSpace(irs, irs, wnd)
  }

  /** The zero value of a control block. */
  const ZERO_BLOCK: Block :=
    Block(ResetSnd(0, 0), ResetRcv(0, 0), 0, NO_FLAGS, NO_FLAGS, Closed, false)

  /** control.go close: the challenge flag and the reset pointer survive. */
  function CloseBlock(b: Block): Block {
    b.(state := Closed, pending0 := NO_FLAGS, pending1 := NO_FLAGS,
       rcv := ResetRcv(0, 0), snd := ResetSnd(0, 0))
  }

  // ---------------------------------------------------------------------------------------------
  // User calls

  function Open(b: Block, iss: Value, wnd: Size, state: State): Result {
    if !b.state.Closed? && !b.state.Listen? then Result(b, TcbNotClosed)
    else if !state.Listen? && !state.SynSent? then Result(b, InvalidState)
    else if wnd > MAX_WINDOW then Result(b, WindowTooLarge)
    else Result(b.(state := state, rcv := ResetRcv(wnd, 0), snd := ResetSnd(iss, 1),
                   pending0 := if state.SynSent? then SYN else NO_FLAGS,
                   pending1 := NO_FLAGS), NoError)
  }

  function Close(b: Block): Result {
    match b.state
    case Closed => Result(b, ConnNotExist)
    case CloseWait => Result(b.(state := LastAck, pending0 := FIN, pending1 := ACK), NoError)
    case Listen => Result(CloseBlock(b), NoError)
    case SynSent => Result(CloseBlock(b), NoError)
    case SynRcvd => Result(b.(pending0 := b.pending0.And(ACK).Or(FIN)), NoError)
    case Established => Result(b.(pending0 := b.pending0.And(ACK).Or(FIN)), NoError)
    case FinWait2 => Result(b, ConnectionClosing)
    case TimeWait => Result(b, ConnectionClosing)
    case _ => Result(b, InvalidState)
  }

  function SetRecvWindow(b: Block, wnd: Size): Block {
    b.(rcv := b.rcv.(wnd := wnd))
  }

  predicate IncomingIsKeepalive(b: Block, seg: Segment) {
    seg.seqno == Sub(b.rcv.nxt, 1) && seg.flags == ACK && seg.ackno == b.snd.nxt && seg.dataLen == 0
  }

  // ---------------------------------------------------------------------------------------------
  // Outgoing segments

  /** The payload PendingSegment settles on, or why it stops. */
  function LimitPayload(b: Block, wanted: nat): Option {
    if wanted > b.snd.MaxSend() then
      if b.snd.MaxSend() == 0 && !(b.pending0.fin || b.pending0.rst || b.pending0.syn) then Nothing
      else if b.snd.MaxSend() > b.snd.wnd then Bad
      else Limited(b.snd.MaxSend())
    else Limited(wanted)
  }

  datatype Option = Nothing | Bad | Limited(n: nat)

  function PendingSegment(b: Block, payloadLen: nat): (r: (Block, Offer)) {
    if b.challengeAck then
      (b.(challengeAck := false), Offered(Segment(b.snd.nxt, b.rcv.nxt, 0, b.rcv.wnd, ACK)))
    else
      var established := b.state.Established?;
      var wanted := if established || b.state.CloseWait? then payloadLen else 0;
      if b.pending0 == NO_FLAGS && wanted == 0 then (b, NoSegment)
      else match LimitPayload(b, wanted)
        case Nothing => (b, NoSegment)
        case Bad => (b, Panic)
        case Limited(n) =>
          var pending := if established then b.pending0.Or(ACK) else b.pending0;
          (b, Offered(Segment(if pending.rst then b.rstPtr else b.snd.nxt,
                              if pending.ack then b.rcv.nxt else 0,
                              if established then n % MODULUS else 0,
                              b.rcv.wnd,
                              pending)))
  }

  function CheckOutgoing(b: Block, seg: Segment): Err {
    var checkSeq := !seg.flags.rst;
    var zeroWindowOk := b.snd.wnd == 0 && seg.dataLen == 0 && seg.seqno == b.snd.nxt;
    if b.state.Closed? then ClosedPipe
    else if seg.wnd > MAX_WINDOW then WindowTooLarge
    else if seg.flags.ack && seg.ackno != b.rcv.nxt then AckNotNext
    else if checkSeq && !InWindow(seg.seqno, b.snd.nxt, b.snd.wnd) && !zeroWindowOk then
      if b.snd.wnd == 0 then ZeroWindow else SeqNotInWindow
    else if seg.dataLen > 0 && (b.state.FinWait1? || b.state.FinWait2?) then ConnectionClosing
    else if checkSeq && b.snd.wnd == 0 && seg.dataLen > 0 && seg.seqno == b.snd.nxt then ZeroWindow
    else if checkSeq && !InWindow(seg.Last(), b.snd.nxt, b.snd.wnd) && !zeroWindowOk then LastNotInWindow
    else NoError
  }

  /** The state a sent segment leads to. */
  function StateAfterSend(state: State, flags: Flags): State {
    match state
    case SynRcvd => if flags.fin then FinWait1 else state
    case Established => if flags.fin then FinWait1 else state
    case Closing => if flags.ack then TimeWait else state
    case CloseWait => if flags.fin then LastAck else state
    case _ => state
  }

  /** The pending queue after sending the given flags: what was sent is removed, and the second slot
      moves up when the first is empty, except for a FIN that has been sent. */
  function Advance(p0: Flags, p1: Flags, flags: Flags): (Flags, Flags) {
    var left := p0.Without(flags);
    if left == NO_FLAGS then (p1.Without(flags.And(FIN)), NO_FLAGS) else (left, p1)
  }

  /** CloseWait queues its FIN behind its first ACK. */
  function NewlyPending(state: State, flags: Flags): Flags {
    if state.CloseWait? && !flags.fin && flags.ack then FINACK else NO_FLAGS
  }

  /** The update every sent segment makes. */
  function Commit(b: Block, seg: Segment): Block {
    var (p0, p1) := Advance(b.pending0, b.pending1, seg.flags);
    b.(state := StateAfterSend(b.state, seg.flags),
       pending0 := p0.Or(NewlyPending(b.state, seg.flags)), pending1 := p1,
       snd := b.snd.(nxt := Add(b.snd.nxt, seg.Len())),
       rcv := b.rcv.(wnd := seg.wnd))
  }

  function Send(b: Block, seg: Segment): Result {
    var err := CheckOutgoing(b, seg);
    if err != NoError then Result(b, err) else Result(Commit(b, seg), NoError)
  }

  /** Offering a segment and sending what was offered, as every user of the block does. */
  datatype Emission =
    | Idle(block: Block)
    | Sent(block: Block, seg: Segment)
    | Fault(block: Block, seg: Segment, err: Err)
    | Crash

  function EmitPending(b: Block, payloadLen: nat): Emission {
    var (b1, offer) := PendingSegment(b, payloadLen);
    match offer
    case NoSegment => Idle(b1)
    case Panic => Crash
    case Offered(seg) =>
      var r := Send(b1, seg);
      if r.err == NoError then Sent(r.block, seg) else Fault(b1, seg, r.err)
  }

  // ---------------------------------------------------------------------------------------------
  // Incoming segments

  /** The window and sequence checks, which change nothing. A SYN is not checked. */
  function CheckIncoming(b: Block, seg: Segment): Err {
    var checkSeq := !seg.flags.syn;
    var zeroWindowOk := b.rcv.wnd == 0 && seg.dataLen == 0 && seg.seqno == b.rcv.nxt;
    if seg.wnd > MAX_WINDOW then WindowOverflow
    else if b.state.Closed? then ClosedPipe
    else if checkSeq && b.rcv.wnd == 0 && seg.dataLen > 0 && seg.seqno == b.rcv.nxt then ZeroWindow
    else if checkSeq && !InWindow(seg.seqno, b.rcv.nxt, b.rcv.wnd) && !zeroWindowOk then SeqNotInWindow
    else if checkSeq && !InWindow(seg.Last(), b.rcv.nxt, b.rcv.wnd) && !zeroWindowOk then LastNotInWindow
    else if checkSeq && seg.seqno != b.rcv.nxt then RequireSequential
    else NoError
  }

  /** 32-bit exclusive or with the constant that control.go mixes into the forgotten peer number. */
  function MixIrs(irs: Value): Value {
    (3141592653 as bv32 ^ irs as bv32) as int
  }

  function HandleRst(b: Block, seqno: Value): Result {
    if seqno != b.rcv.nxt then
      Result(b.(challengeAck := true, pending0 := b.pending0.Or(ACK)), DropSegment)
    else if b.state.IsPreestablished() then
      Result(b.(pending0 := NO_FLAGS, state := Listen,
                snd := ResetSnd(Add(b.snd.iss, RST_JUMP), b.snd.wnd),
                rcv := ResetRcv(b.rcv.wnd, MixIrs(b.rcv.irs))), DropSegment)
    else
      Result(CloseBlock(b), NetClosed)
  }

  /** The drop-segment checks on the acknowledgment number. */
  function ScreenAck(b: Block, seg: Segment): Result {
    var acksOld := seg.flags.ack && !LessThan(b.snd.una, seg.ackno);
    var acksUnsent := seg.flags.ack && !LessThanEq(seg.ackno, b.snd.nxt);
    var ctlOrData := seg.dataLen > 0 || seg.flags.fin || seg.flags.rst;
    if b.state.Established? && acksOld && !ctlOrData then
      Result(b.(pending0 := b.pending0.And(FIN)), DropSegment)
    else if b.state.Established? && acksUnsent then
      Result(b.(pending0 := ACK), DropSegment)
    else if b.state.IsPreestablished() && (acksOld || acksUnsent) then
      Result(b.(pending0 := RST, rstPtr := seg.ackno, snd := ResetSnd(b.snd.iss, seg.wnd)), DropSegment)
    else
      Result(b, NoError)
  }

  function ValidateIncoming(b: Block, seg: Segment): Result {
    var err := CheckIncoming(b, seg);
    if err != NoError then Result(b, err)
    else if seg.flags.rst then HandleRst(b, seg.seqno)
    else ScreenAck(b, seg)
  }

  /** What the handler of the current state does to the block and the flags it makes pending. */
  datatype Handled = Handled(block: Block, pending: Flags, err: Err)

  function Handle(b: Block, seg: Segment): Handled {
    match b.state
    case Listen =>
      if !seg.flags.syn then Handled(b, NO_FLAGS, ExpectedSyn)
      else Handled(b.(snd := ResetSnd(b.snd.iss, seg.wnd), rcv := ResetRcv(b.rcv.wnd, seg.seqno),
                      pending0 := SYNACK, state := SynRcvd), SYNACK, NoError)
    case SynSent =>
      if !seg.flags.syn then Handled(b, NO_FLAGS, ExpectedSyn)
      else if seg.flags.ack && seg.ackno != Add(b.snd.una, 1) then Handled(b, NO_FLAGS, BadSegAck)
      else if seg.flags.ack then
        Handled(b.(state := Established, rcv := ResetRcv(b.rcv.wnd, seg.seqno)), ACK, NoError)
      else
        Handled(b.(state := SynRcvd, snd := ResetSnd(b.snd.iss, seg.wnd),
                   rcv := ResetRcv(b.rcv.wnd, seg.seqno)), SYNACK, NoError)
    case SynRcvd =>
      if seg.ackno != Add(b.snd.una, 1) then Handled(b, NO_FLAGS, BadSegAck)
      else Handled(b.(state := Established), NO_FLAGS, NoError)
    case Established =>
      if seg.flags.fin then Handled(b.(state := CloseWait, pending1 := FIN), ACK, NoError)
      else Handled(b, if seg.dataLen > 0 then ACK else NO_FLAGS, NoError)
    case FinWait1 =>
      if seg.flags.fin && seg.flags.ack && seg.ackno == b.snd.nxt then
        Handled(b.(state := TimeWait), ACK, NoError)
      else if seg.flags.fin then Handled(b.(state := Closing), ACK, NoError)
      else if seg.flags.ack then Handled(b.(state := FinWait2), ACK, NoError)
      else Handled(b, NO_FLAGS, FinWaitExpectedAck)
    case FinWait2 =>
      if !(seg.flags.fin && seg.flags.ack) then Handled(b, NO_FLAGS, FinWaitExpectedFinAck)
      else Handled(b.(state := TimeWait), ACK, NoError)
    case CloseWait => Handled(b, NO_FLAGS, NoError)
    case LastAck => Handled(if seg.flags.ack then CloseBlock(b) else b, NO_FLAGS, NoError)
    case Closing => Handled(if seg.flags.ack then b.(state := TimeWait) else b, NO_FLAGS, NoError)
    case _ => Handled(b, NO_FLAGS, PanicUnexpectedState)
  }

  /** The update every accepted segment makes. */
  function Accept(b: Block, seg: Segment, pending: Flags): Block {
    b.(pending0 := b.pending0.Or(pending),
       snd := b.snd.(wnd := seg.wnd, una := if seg.flags.ack then seg.ackno else b.snd.una),
       rcv := b.rcv.(nxt := Add(b.rcv.nxt, seg.Len())))
  }

  function Recv(b: Block, seg: Segment): Result {
    var v := ValidateIncoming(b, seg);
    if v.err != NoError then v
    else
      var h := Handle(v.block, seg);
      if h.err != NoError then Result(h.block, h.err)
      else Result(Accept(h.block, seg, h.pending), NoError)
  }
}
