/** One control block against arbitrary incoming segments and user calls: what every step and every
    run keeps. */
module Lifecycle {
  import opened SeqNum
  import opened Segments
  import opened Control

  /** Everything that can happen to a block between one Open and the next. */
  datatype Step =
    | Receive(seg: Segment)
    | Emit(n: nat)
    | UserClose
    | SetWindow(wnd: Size)

  function Apply(b: Block, s: Step): Block {
    match s
    case Receive(seg) => Recv(b, seg).block
    case Emit(n) => (match EmitPending(b, n)
                     case Sent(b', _) => b'
                     case Idle(b') => b'
                     case Fault(b', _, _) => b'
                     case Crash => b)
    case UserClose => Close(b).block
    case SetWindow(wnd) => SetRecvWindow(b, wnd)
  }

  // ---------------------------------------------------------------------------------------------
  // All or nothing

  lemma {:induction false} HandlerRefusal(b: Block, seg: Segment)
    ensures Handle(b, seg).err != NoError ==> Handle(b, seg).block == b
    ensures Handle(b, seg).err !in {DropSegment, NetClosed}
  {
    match b.state {
      case Closed =>
      case Listen =>
      case SynSent =>
      case SynRcvd =>
      case Established =>
      case FinWait1 =>
      case FinWait2 =>
      case Closing =>
      case TimeWait =>
      case CloseWait =>
      case LastAck =>
    }
  }

  /** A refused segment, incoming or outgoing, leaves the whole block as it was: only a dropped segment
      and a reset may change a block and still report an error. */
  lemma {:induction false} RefusalChangesNothing(b: Block, seg: Segment)
    ensures Send(b, seg).err != NoError ==> Send(b, seg).block == b
    ensures Recv(b, seg).err !in {NoError, DropSegment, NetClosed} ==> Recv(b, seg).block == b
  {
    var v := ValidateIncoming(b, seg);
    assert v.err !in {DropSegment, NetClosed} ==> v.block == b;
    HandlerRefusal(v.block, seg);
  }

  // ---------------------------------------------------------------------------------------------
  // One-way lifecycle

  function Rank(s: State): nat {
    match s
    case Closed => 4
    case TimeWait => 3
    case FinWait2 => 2
    case Closing => 2
    case LastAck => 2
    case FinWait1 => 1
    case CloseWait => 1
    case _ => 0
  }

  lemma {:induction false} HandleClimbs(b: Block, seg: Segment)
    requires b.state.IsSynchronized()
    ensures Climbs(b.state, Handle(b, seg).block.state)
  {
    match b.state {
      case Established =>
      case FinWait1 =>
      case FinWait2 =>
      case Closing =>
      case TimeWait =>
      case CloseWait =>
      case LastAck =>
    }
  }

  predicate Climbs(s: State, t: State) {
    t == s || (Rank(s) < Rank(t) && (t.IsSynchronized() || t.Closed?))
  }

  lemma {:induction false} ReceiveClimbs(b: Block, seg: Segment)
    requires b.state.IsSynchronized() || b.state.Closed?
    ensures Climbs(b.state, Recv(b, seg).block.state)
  {
    var v := ValidateIncoming(b, seg);
    assert v.block.state == b.state || v.block.state.Closed?;
    if v.err == NoError {
      HandleClimbs(b, seg);
    }
  }

  lemma {:induction false} SendClimbs(state: State, flags: Flags)
    requires state.IsSynchronized() || state.Closed?
    ensures Climbs(state, StateAfterSend(state, flags))
  {
  }

  /** What an emission leaves: the block without its challenge flag, or that with the segment committed. */
  lemma {:induction false} EmitLeaves(b: Block, n: nat)
    ensures var b1 := b.(challengeAck := false);
            var o := PendingSegment(b, n).1;
            || Apply(b, Emit(n)) == b || Apply(b, Emit(n)) == b1
            || (o.Offered? && CheckOutgoing(b1, o.seg) == NoError && Apply(b, Emit(n)) == Commit(b1, o.seg))
  {
    OfferedFin(b, n);
  }

  /** Once synchronized, a block only moves forward; once closed, it stays closed. */
  lemma {:induction false} StepClimbs(b: Block, s: Step)
    requires b.state.IsSynchronized() || b.state.Closed?
    ensures Climbs(b.state, Apply(b, s).state)
  {
    match s {
      case Receive(seg) => ReceiveClimbs(b, seg);
      case Emit(n) =>
        EmitLeaves(b, n);
        if PendingSegment(b, n).1.Offered? {
          SendClimbs(b.state, PendingSegment(b, n).1.seg.flags);
        }
      case UserClose =>
      case SetWindow(_) =>
    }
  }

  /** The states a run goes through. */
  function Trace(b: Block, steps: seq<Step>): (t: seq<State>)
    ensures |t| == |steps| + 1
    decreases |steps|
  {
    if steps == [] then [b.state] else [b.state] + Trace(Apply(b, steps[0]), steps[1..])
  }

  function Changes(t: seq<State>): nat {
    if |t| < 2 then 0 else (if t[0] == t[1] then 0 else 1) + Changes(t[1..])
  }

  /** A run that starts synchronized stays synchronized or closed: it never comes back to the opening states, it
      changes state at most four times, and once closed not at all. */
  lemma {:induction false} OneWay(b: Block, steps: seq<Step>)
    requires b.state.IsSynchronized() || b.state.Closed?
    ensures var t := Trace(b, steps);
            && (forall i :: 0 <= i < |t| ==> t[i].IsSynchronized() || t[i].Closed?)
            && Rank(b.state) + Changes(t) <= Rank(t[|t| - 1]) <= 4
    decreases |steps|
  {
    if steps != [] {
      StepClimbs(b, steps[0]);
      var b' := Apply(b, steps[0]);
      var t, t' := Trace(b, steps), Trace(b', steps[1..]);
      assert t[1..] == t';
      OneWay(b', steps[1..]);
      assert t'[0] == b'.state;
    }
  }

  // ---------------------------------------------------------------------------------------------
  // At most one FIN

  /** The FIN flags of the segments that a run sends. */
  function FinsSent(b: Block, steps: seq<Step>): nat
    decreases |steps|
  {
    if steps == [] then 0 else FinOf(b, steps[0]) + FinsSent(Apply(b, steps[0]), steps[1..])
  }

  function FinOf(b: Block, s: Step): nat {
    if s.Emit? && EmitPending(b, s.n).Sent? && EmitPending(b, s.n).seg.flags.fin then 1 else 0
  }

  /** Where a FIN may be pending: in the first slot while the side has not sent one, in the second only
      behind the acknowledgment of the peer's. */
  predicate FinPlaces(b: Block) {
    && (b.pending0.fin ==> b.state.SynRcvd? || b.state.Established? || b.state.CloseWait? || b.state.LastAck?)
    && (b.pending1.fin ==> b.state.CloseWait?)
  }

  /** A FIN has been sent and none is pending. */
  predicate FinDone(b: Block) {
    && !b.pending0.fin && !b.pending1.fin
    && (Rank(b.state) >= 2 || b.state.FinWait1?)
  }

  lemma {:induction false} ValidateKeepsFin(b: Block, seg: Segment)
    requires FinPlaces(b)
    ensures var v := ValidateIncoming(b, seg);
            && FinPlaces(v.block) && (FinDone(b) ==> FinDone(v.block)) && (v.err == NoError ==> v.block == b)
  {
    ScreenKeepsFin(b, seg);
    ResetKeepsFin(b, seg.seqno);
  }

  lemma {:induction false} ScreenKeepsFin(b: Block, seg: Segment)
    requires FinPlaces(b)
    ensures var v := ScreenAck(b, seg);
            && FinPlaces(v.block) && (FinDone(b) ==> FinDone(v.block)) && (v.err == NoError ==> v.block == b)
  {
  }

  lemma {:induction false} ResetKeepsFin(b: Block, seqno: Value)
    requires FinPlaces(b)
    ensures var v := HandleRst(b, seqno);
            FinPlaces(v.block) && (FinDone(b) ==> FinDone(v.block)) && v.err != NoError
  {
  }

  lemma {:induction false} HandleKeepsFin(b: Block, seg: Segment)
    requires FinPlaces(b)
    ensures var h := Handle(b, seg);
            FinPlaces(h.block) && !h.pending.fin && (FinDone(b) ==> FinDone(h.block))
  {
    match b.state {
      case Closed =>
      case Listen =>
      case SynSent =>
      case SynRcvd =>
      case Established =>
      case FinWait1 =>
      case FinWait2 =>
      case Closing =>
      case TimeWait =>
      case CloseWait =>
      case LastAck =>
    }
  }

  lemma {:induction false} ReceiveKeepsFin(b: Block, seg: Segment)
    requires FinPlaces(b)
    ensures FinPlaces(Recv(b, seg).block) && (FinDone(b) ==> FinDone(Recv(b, seg).block))
  {
    ValidateKeepsFin(b, seg);
    if ValidateIncoming(b, seg).err == NoError {
      HandleKeepsFin(b, seg);
    }
  }

  lemma {:induction false} CommitKeepsFin(b: Block, seg: Segment)
    requires FinPlaces(b) && (seg.flags.fin ==> b.pending0.fin && b.pending0.Without(seg.flags) == NO_FLAGS)
    ensures var b' := Commit(b, seg);
            FinPlaces(b') && (FinDone(b) || seg.flags.fin ==> FinDone(b'))
  {
  }

  /** A segment that is offered carries a FIN only along with everything else that is pending. */
  lemma {:induction false} OfferedFin(b: Block, n: nat)
    ensures var (b', o) := PendingSegment(b, n);
            && b' == b.(challengeAck := false)
            && (o.Offered? && o.seg.flags.fin ==> b.pending0.fin && b.pending0.Without(o.seg.flags) == NO_FLAGS)
  {
  }

  /** Sending what was offered removes a FIN for good. */
  lemma {:induction false} EmitKeepsFin(b: Block, n: nat)
    requires FinPlaces(b)
    ensures var b' := Apply(b, Emit(n));
            && FinPlaces(b')
            && (FinDone(b) ==> FinDone(b') && FinOf(b, Emit(n)) == 0)
            && (FinOf(b, Emit(n)) == 1 ==> FinDone(b'))
  {
    OfferedFin(b, n);
    EmitLeaves(b, n);
    var (b1, o) := PendingSegment(b, n);
    if EmitPending(b, n).Sent? {
      CommitKeepsFin(b1, o.seg);
    }
  }

  lemma {:induction false} FinsAtMost(b: Block, steps: seq<Step>)
    requires FinPlaces(b)
    ensures FinsSent(b, steps) <= if FinDone(b) then 0 else 1
    decreases |steps|
  {
    if steps != [] {
      match steps[0] {
        case Receive(seg) => ReceiveKeepsFin(b, seg);
        case Emit(n) => EmitKeepsFin(b, n);
        case UserClose =>
        case SetWindow(_) =>
      }
      FinsAtMost(Apply(b, steps[0]), steps[1..]);
    }
  }

  /** Whatever arrives and whenever the user closes, a block sends at most one FIN after it is opened. */
  lemma {:induction false} AtMostOneFin(b: Block, iss: Value, wnd: Size, state: State, steps: seq<Step>)
    requires Open(b, iss, wnd, state).err == NoError
    ensures FinsSent(Open(b, iss, wnd, state).block, steps) <= 1
  {
    FinsAtMost(Open(b, iss, wnd, state).block, steps);
  }

  // ---------------------------------------------------------------------------------------------
  // Offered control segments are sendable

  lemma {:induction false} OfferedControl(b: Block)
    requires !b.challengeAck && PendingSegment(b, 0).1.Offered?
    ensures var f := if b.state.Established? then b.pending0.Or(ACK) else b.pending0;
            PendingSegment(b, 0) == (b, Offered(Segment(if f.rst then b.rstPtr else b.snd.nxt,
                                                        if f.ack then b.rcv.nxt else 0, 0, b.rcv.wnd, f)))
  {
  }

  /** A control segment that is offered goes out unless it is both SYN and FIN in a window of one octet; a challenge
      acknowledgment always does. */
  lemma {:induction false} OfferAccepted(b: Block)
    requires !b.state.Closed? && PendingSegment(b, 0).1.Offered?
    ensures EmitPending(b, 0).Sent? <==>
              && b.rcv.wnd <= MAX_WINDOW
              && (b.challengeAck || b.pending0.rst || !(b.pending0.syn && b.pending0.fin) || b.snd.wnd != 1)
  {
    if b.challengeAck {
      ChallengeAccepted(b);
    } else {
      OfferedControl(b);
    }
  }

  lemma {:induction false} ChallengeAccepted(b: Block)
    requires !b.state.Closed? && b.challengeAck
    ensures EmitPending(b, 0).Sent? <==> b.rcv.wnd <= MAX_WINDOW
  {
  }

  /** SYN and FIN are not pending together, and nothing is pending that would bring them together. */
  predicate Separate(b: Block) {
    && !b.challengeAck && b.rcv.wnd <= MAX_WINDOW
    && !(b.pending0.syn && b.pending0.fin) && !b.pending1.syn
    && (b.state.Listen? || b.state.SynSent? ==> !b.pending0.fin)
    && (b.pending1.fin ==> b.state.CloseWait?)
    && (b.state.Closed? ==> b.pending0 == NO_FLAGS)
  }

  /** No segment combines SYN and RST, and windows fit 16 bits. */
  predicate Ordinary(s: Step) {
    match s
    case Receive(seg) => !(seg.flags.syn && seg.flags.rst)
    case SetWindow(wnd) => wnd <= MAX_WINDOW
    case _ => true
  }

  lemma {:induction false} ValidateSeparate(b: Block, seg: Segment)
    requires Separate(b) && !(seg.flags.syn && seg.flags.rst)
    ensures Separate(ValidateIncoming(b, seg).block)
    ensures ValidateIncoming(b, seg).err == NoError ==> ValidateIncoming(b, seg).block == b
  {
  }

  lemma {:induction false} OpeningSeparate(b: Block, seg: Segment)
    requires Separate(b) && b.state.IsPreestablished()
    ensures var h := Handle(b, seg);
            h.err == NoError ==> Separate(Accept(h.block, seg, h.pending))
  {
    match b.state {
      case Listen =>
      case SynSent =>
      case SynRcvd =>
    }
  }

  /** Past the handshake only an ACK becomes pending. */
  lemma {:induction false} SynchronizedSeparate(b: Block, seg: Segment)
    requires Separate(b) && b.state.IsSynchronized()
    ensures var h := Handle(b, seg);
            Separate(h.block) && !h.pending.syn && !h.pending.fin && (h.block.state.Closed? ==> h.pending == NO_FLAGS)
  {
    match b.state {
      case Established =>
      case FinWait1 =>
      case FinWait2 =>
      case Closing =>
      case TimeWait =>
      case CloseWait =>
      case LastAck =>
    }
  }

  lemma {:induction false} HandleSeparate(b: Block, seg: Segment)
    requires Separate(b) && !b.state.Closed?
    ensures var h := Handle(b, seg);
            h.err == NoError ==> Separate(Accept(h.block, seg, h.pending))
  {
    if b.state.IsPreestablished() {
      OpeningSeparate(b, seg);
    } else {
      SynchronizedSeparate(b, seg);
    }
  }

  lemma {:induction false} AdvanceAll(p0: Flags, p1: Flags, flags: Flags)
    requires p0.Without(flags) == NO_FLAGS
    ensures Advance(p0, p1, flags).1 == NO_FLAGS
    ensures (Advance(p0, p1, flags).0.fin ==> p1.fin) && (Advance(p0, p1, flags).0.syn ==> p1.syn)
  {
  }

  lemma {:induction false} QueueSeparate(state: State, p0: Flags, p1: Flags, flags: Flags)
    requires p0.Without(flags) == NO_FLAGS && !p1.syn && (p1.fin ==> state.CloseWait?)
    ensures var q0 := Advance(p0, p1, flags).0.Or(NewlyPending(state, flags));
            !q0.syn && (q0.fin ==> state.CloseWait?)
  {
    AdvanceAll(p0, p1, flags);
  }

  lemma {:induction false} CommitSeparate(b: Block, seg: Segment)
    requires Separate(b) && !b.state.Closed? && seg.wnd <= MAX_WINDOW && b.pending0.Without(seg.flags) == NO_FLAGS
    ensures Separate(Commit(b, seg))
  {
    AdvanceAll(b.pending0, b.pending1, seg.flags);
    QueueSeparate(b.state, b.pending0, b.pending1, seg.flags);
    var state' := StateAfterSend(b.state, seg.flags);
    assert !state'.Closed? && (state'.Listen? || state'.SynSent? ==> state' == b.state);
  }

  lemma {:induction false} OfferedSeparate(b: Block, n: nat)
    requires !b.challengeAck
    ensures var (b', o) := PendingSegment(b, n);
            && b' == b
            && (o.Offered? ==> o.seg.wnd == b.rcv.wnd && b.pending0.Without(o.seg.flags) == NO_FLAGS)
  {
  }

  lemma {:induction false} EmitSeparate(b: Block, n: nat)
    requires Separate(b)
    ensures Separate(Apply(b, Emit(n)))
  {
    OfferedSeparate(b, n);
    EmitLeaves(b, n);
    var o := PendingSegment(b, n).1;
    if o.Offered? && !b.state.Closed? {
      CommitSeparate(b, o.seg);
    }
  }

  lemma {:induction false} StepSeparate(b: Block, s: Step)
    requires Separate(b) && Ordinary(s)
    ensures Separate(Apply(b, s))
  {
    match s {
      case Receive(seg) =>
        ValidateSeparate(b, seg);
        if !b.state.Closed? {
          HandleSeparate(b, seg);
        }
        HandlerRefusal(b, seg);
      case Emit(n) =>
        EmitSeparate(b, n);
      case UserClose =>
      case SetWindow(_) =>
    }
  }

  /** The block after a run. */
  function After(b: Block, steps: seq<Step>): Block
    decreases |steps|
  {
    if steps == [] then b else After(Apply(b, steps[0]), steps[1..])
  }

  lemma {:induction false} RunSeparate(b: Block, steps: seq<Step>)
    requires Separate(b) && forall i :: 0 <= i < |steps| ==> Ordinary(steps[i])
    ensures Separate(After(b, steps))
    decreases |steps|
  {
    if steps != [] {
      StepSeparate(b, steps[0]);
      RunSeparate(Apply(b, steps[0]), steps[1..]);
    }
  }

  /** In every state reached after Open (of any block that owes no challenge acknowledgment) under arbitrary incoming
      segments that do not combine SYN and RST, whatever control segment the block offers is accepted by its own Send,
      zero windows included. */
  lemma {:induction false} OfferedIsSendable(b0: Block, iss: Value, wnd: Size, state: State, steps: seq<Step>)
    requires Open(b0, iss, wnd, state).err == NoError && !b0.challengeAck
    requires forall i :: 0 <= i < |steps| ==> Ordinary(steps[i])
    ensures var b := After(Open(b0, iss, wnd, state).block, steps);
            EmitPending(b, 0).Sent? || EmitPending(b, 0).Idle?
  {
    RunSeparate(Open(b0, iss, wnd, state).block, steps);
    var b := After(Open(b0, iss, wnd, state).block, steps);
    if PendingSegment(b, 0).1.Offered? {
      OfferAccepted(b);
    }
  }

  // A block that owes a challenge acknowledgment is established by a bare acknowledgment number while its SYN is
  // still pending, gets a FIN, and then sends what it owes.

  function Joining(iss: Value): seq<Step> {
    [Receive(Segment(100, 0, 0, 1, SYN)), Receive(Segment(101, Add(iss, 1), 0, 1, NO_FLAGS)),
     Receive(Segment(101, Add(iss, 1), 0, 1, FIN)), Emit(0)]
  }

  function SynTaken(b: Block, iss: Value, wnd: Size): Block {
    Block(ResetSnd(iss, 1), RecvSpace(100, 101, wnd), b.rstPtr, SYNACK, NO_FLAGS, SynRcvd, b.challengeAck)
  }

  function FinTaken(b: Block, iss: Value, wnd: Size): Block {
    Block(ResetSnd(iss, 1), RecvSpace(100, 102, wnd), b.rstPtr, SYNACK, FIN, CloseWait, b.challengeAck)
  }

  lemma {:induction false} JoiningSyn(b: Block, iss: Value, wnd: Size, state: State)
    requires Open(b, iss, wnd, state).err == NoError
    ensures Apply(Open(b, iss, wnd, state).block, Joining(iss)[0]) == SynTaken(b, iss, wnd)
  {
    assert SYN.Or(SYNACK) == SYNACK && SYNACK.Or(SYNACK) == SYNACK;
  }

  lemma {:induction false} JoiningFin(b: Block, iss: Value, wnd: Size)
    ensures Apply(Apply(SynTaken(b, iss, wnd), Joining(iss)[1]), Joining(iss)[2]) == FinTaken(b, iss, wnd)
  {
    OrNothing(SYNACK);
    assert SYNACK.Or(ACK) == SYNACK;
    var b1 := SynTaken(b, iss, wnd).(state := Established);
    assert Apply(SynTaken(b, iss, wnd), Joining(iss)[1]) == b1;
    assert Apply(b1, Joining(iss)[2]) == FinTaken(b, iss, wnd);
  }

  lemma {:induction false} JoiningFault(b: Block, iss: Value, wnd: Size)
    requires b.challengeAck && wnd <= MAX_WINDOW
    ensures var b' := Apply(FinTaken(b, iss, wnd), Emit(0));
            EmitPending(b', 0).Fault? && !b'.state.Closed?
  {
    var w := FinTaken(b, iss, wnd);
    var b' := w.(challengeAck := false, pending0 := SYN.Or(FINACK));
    assert SYNACK.Without(ACK) == SYN;
    assert EmitPending(w, 0) == Sent(b', Segment(iss, 102, 0, wnd, ACK));
  }

  lemma {:induction false} AfterFour(b: Block, s: seq<Step>)
    requires |s| == 4
    ensures After(b, s) == Apply(Apply(Apply(Apply(b, s[0]), s[1]), s[2]), s[3])
  {
    var b1 := Apply(b, s[0]);
    var b2 := Apply(b1, s[1]);
    var b3 := Apply(b2, s[2]);
    assert s[1..][1..] == s[2..] && s[2..][1..] == s[3..] && s[3..][1..] == [];
    assert After(b3, s[3..]) == After(Apply(b3, s[3]), []);
    assert After(b1, s[1..]) == After(b2, s[2..]);
  }

  /** A challenge acknowledgment owed from before Open breaks the property, for all initial numbers, windows and ways
      to open: it leaves a SYN pending that CloseWait joins with its FIN, and the peer's window is one octet. */
  lemma {:induction false} ChallengeBreaksSendable(b0: Block, iss: Value, wnd: Size, state: State)
    requires Open(b0, iss, wnd, state).err == NoError && b0.challengeAck
    ensures forall i :: 0 <= i < 4 ==> Ordinary(Joining(iss)[i])
    ensures var b := After(Open(b0, iss, wnd, state).block, Joining(iss));
            EmitPending(b, 0).Fault? && !b.state.Closed?
  {
    JoiningSyn(b0, iss, wnd, state);
    JoiningFin(b0, iss, wnd);
    JoiningFault(b0, iss, wnd);
    AfterFour(Open(b0, iss, wnd, state).block, Joining(iss));
  }

  /** Everything that is offered in ordinary runs after Open is sendable if and only if the block owed no challenge
      acknowledgment when it was opened. */
  lemma {:induction false} SendableIff(b0: Block, iss: Value, wnd: Size, state: State)
    requires Open(b0, iss, wnd, state).err == NoError
    ensures (forall steps | OrdinaryRun(steps) ::
               !EmitPending(After(Open(b0, iss, wnd, state).block, steps), 0).Fault?) <==> !b0.challengeAck
  {
    if b0.challengeAck {
      ChallengeBreaksSendable(b0, iss, wnd, state);
      assert OrdinaryRun(Joining(iss));
    } else {
      forall steps | OrdinaryRun(steps)
        ensures !EmitPending(After(Open(b0, iss, wnd, state).block, steps), 0).Fault?
      {
        OfferedIsSendable(b0, iss, wnd, state, steps);
      }
    }
  }

  predicate OrdinaryRun(steps: seq<Step>) {
    forall i :: 0 <= i < |steps| ==> Ordinary(steps[i])
  }

  // The same in one run from the zero block, when a segment combines SYN and RST.

  const LISTENING: Block := Open(ZERO_BLOCK, 300, 1000, Listen).block

  function ChallengedRun(): seq<Step> {
    Joining(300)[..3] + [Receive(Segment(7, 0, 0, 1, SYN.Or(RST))), Emit(0)]
  }

  /** With a segment that combines SYN and RST the property is false: it makes a block owe a challenge
      acknowledgment. */
  lemma {:induction false} SynRstBreaksSendable()
    ensures EmitPending(After(LISTENING, ChallengedRun()), 0).Fault? && !After(LISTENING, ChallengedRun()).state.Closed?
    ensures !Ordinary(ChallengedRun()[3])
  {
    var s := ChallengedRun();
    var w := FinTaken(ZERO_BLOCK, 300, 1000);
    JoiningSyn(ZERO_BLOCK, 300, 1000, Listen);
    JoiningFin(ZERO_BLOCK, 300, 1000);
    var b := ZERO_BLOCK.(challengeAck := true);
    assert SYNACK.Or(ACK) == SYNACK;
    assert Apply(w, s[3]) == FinTaken(b, 300, 1000);
    JoiningFault(b, 300, 1000);
    AfterFour(Apply(LISTENING, s[0]), s[1..]);
    assert After(LISTENING, s) == After(Apply(LISTENING, s[0]), s[1..]);
  }
}
