/** The Transmission Control Block in the form the program has: an object whose methods update its
    fields one at a time (control.go, control_user.go). Every method is proved to take the block to
    the value that the functions of module Control give. */
module ControlBlocks {
  import opened SeqNum
  import opened Segments
  import opened Control

  class ControlBlock {
    var snd: SendSpace
    var rcv: RecvSpace
    var rstPtr: Value
    var pending0: Flags
    var pending1: Flags
    var state: State
    var challengeAck: bool

    /** The value of this block. */
    function View(): (b: Block)
      reads this
    {
      Block(snd, rcv, rstPtr, pending0, pending1, state, challengeAck)
    }

    constructor ()
      ensures View() == ZERO_BLOCK
    {
      snd := ResetSnd(0, 0);
      rcv := ResetRcv(0, 0);
      rstPtr := 0;
      pending0, pending1 := NO_FLAGS, NO_FLAGS;
      state := Closed;
      challengeAck := false;
    }

    method Open(iss: Value, wnd: Size, newState: State) returns (err: Err)
      modifies this
      ensures Result(View(), err) == Control.Open(old(View()), iss, wnd, newState)
      ensures err != NoError ==> unchanged(this)
    {
      err := NoError;
      if state != Closed && state != Listen {
        err := TcbNotClosed;
      } else if newState != Listen && newState != SynSent {
        err := InvalidState;
      } else if wnd > MAX_WINDOW {
        err := WindowTooLarge;
      }
      if err != NoError {
        return;
      }
      state := newState;
      rcv := ResetRcv(wnd, 0);
      snd := ResetSnd(iss, 1);
      pending0, pending1 := NO_FLAGS, NO_FLAGS;
      if newState == SynSent {
        pending0 := SYN;
      }
    }

    method CloseAll()
      modifies this
      ensures View() == CloseBlock(old(View()))
    {
      state := Closed;
      pending0, pending1 := NO_FLAGS, NO_FLAGS;
      rcv := ResetRcv(0, 0);
      snd := ResetSnd(0, 0);
    }

    method Close() returns (err: Err)
      modifies this
      ensures Result(View(), err) == Control.Close(old(View()))
      ensures err != NoError ==> unchanged(this)
    {
      err := NoError;
      match state {
        case Closed =>
          err := ConnNotExist;
        case CloseWait =>
          state := LastAck;
          pending0, pending1 := FIN, ACK;
        case Listen =>
          CloseAll();
        case SynSent =>
          CloseAll();
        case SynRcvd =>
          pending0 := pending0.And(ACK).Or(FIN);
        case Established =>
          pending0 := pending0.And(ACK).Or(FIN);
        case FinWait2 =>
          err := ConnectionClosing;
        case TimeWait =>
          err := ConnectionClosing;
        case _ =>
          err := InvalidState;
      }
    }

    method SetRecvWindow(wnd: Size)
      modifies this`rcv
      ensures View() == Control.SetRecvWindow(old(View()), wnd)
    {
      rcv := rcv.(wnd := wnd);
    }

    /** Only the challenge flag may change. */
    method PendingSegment(payloadLen: nat) returns (offer: Offer)
      modifies this`challengeAck
      ensures (View(), offer) == Control.PendingSegment(old(View()), payloadLen)
    {
      if challengeAck {
        challengeAck := false;
        return Offered(Segment(snd.nxt, rcv.nxt, 0, rcv.wnd, ACK));
      }
      var pending := pending0;
      var n := payloadLen;
      var established := state == Established;
      if !established && state != CloseWait {
        n := 0;
      }
      if pending == NO_FLAGS && n == 0 {
        return NoSegment;
      }
      var maxPayload := snd.MaxSend();
      if n > maxPayload {
        if maxPayload == 0 && !pending0.HasAny(FIN.Or(RST).Or(SYN)) {
          return NoSegment;
        } else if maxPayload > snd.wnd {
          return Panic;
        }
        n := maxPayload;
      }
      if established {
        pending := pending.Or(ACK);
      } else {
        n := 0;
      }
      var ack := 0;
      if pending.HasAny(ACK) {
        ack := rcv.nxt;
      }
      var seqno := snd.nxt;
      if pending.HasAny(RST) {
        seqno := rstPtr;
      }
      return Offered(Segment(seqno, ack, n % MODULUS, rcv.wnd, pending));
    }

    method ValidateOutgoing(seg: Segment) returns (err: Err)
      ensures err == CheckOutgoing(View(), seg)
    {
      var hasAck := seg.flags.HasAny(ACK);
      var checkSeq := !seg.flags.HasAny(RST);
      var segLast := seg.Last();
      var zeroWindowOk := snd.wnd == 0 && seg.dataLen == 0 && seg.seqno == snd.nxt;
      var outOfWindow := checkSeq && !InWindow(seg.seqno, snd.nxt, snd.wnd) && !zeroWindowOk;
      err := NoError;
      if state == Closed {
        err := ClosedPipe;
      } else if seg.wnd > MAX_WINDOW {
        err := WindowTooLarge;
      } else if hasAck && seg.ackno != rcv.nxt {
        err := AckNotNext;
      } else if outOfWindow {
        if snd.wnd == 0 {
          err := ZeroWindow;
        } else {
          err := SeqNotInWindow;
        }
      } else if seg.dataLen > 0 && (state == FinWait1 || state == FinWait2) {
        err := ConnectionClosing;
      } else if checkSeq && snd.wnd == 0 && seg.dataLen > 0 && seg.seqno == snd.nxt {
        err := ZeroWindow;
      } else if checkSeq && !InWindow(segLast, snd.nxt, snd.wnd) && !zeroWindowOk {
        err := LastNotInWindow;
      }
    }

    method AdvanceState(flags: Flags) returns (newPending: Flags)
      modifies this`state
      ensures state == StateAfterSend(old(state), flags) && newPending == NewlyPending(old(state), flags)
    {
      HasFin(flags);
      HasAck(flags);
      newPending := SwitchState(flags.HasAny(FIN), flags.HasAny(ACK), flags);
    }

    /** The switch on the state. */
    method SwitchState(hasFin: bool, hasAck: bool, ghost flags: Flags) returns (newPending: Flags)
      requires hasFin == flags.fin && hasAck == flags.ack
      modifies this`state
      ensures state == StateAfterSend(old(state), flags) && newPending == NewlyPending(old(state), flags)
    {
      newPending := NO_FLAGS;
      if state == SynRcvd || state == Established {
        if hasFin {
          state := FinWait1;
        }
      } else if state == Closing {
        if hasAck {
          state := TimeWait;
        }
      } else if state == CloseWait {
        if hasFin {
          state := LastAck;
        } else if hasAck {
          newPending := FINACK;
        }
      }
    }

    method AdvancePending(flags: Flags)
      modifies this`pending0, this`pending1
      ensures (pending0, pending1) == Advance(old(pending0), old(pending1), flags)
    {
      pending0 := pending0.Without(flags);
      if pending0 == NO_FLAGS {
        pending0, pending1 := pending1.Without(flags.And(FIN)), NO_FLAGS;
      }
    }

    method Send(seg: Segment) returns (err: Err)
      modifies this
      ensures Result(View(), err) == Control.Send(old(View()), seg)
      ensures err != NoError ==> unchanged(this)
    {
      err := ValidateOutgoing(seg);
      if err != NoError {
        return;
      }
      var newPending := AdvanceState(seg.flags);
      AdvancePending(seg.flags);
      pending0 := pending0.Or(newPending);
      snd := snd.(nxt := Add(snd.nxt, seg.Len()));
      rcv := rcv.(wnd := seg.wnd);
    }

    method HandleRst(seqno: Value) returns (err: Err)
      modifies this
      ensures Result(View(), err) == Control.HandleRst(old(View()), seqno)
    {
      if seqno != rcv.nxt {
        challengeAck := true;
        pending0 := pending0.Or(ACK);
        return DropSegment;
      }
      if state.IsPreestablished() {
        pending0 := NO_FLAGS;
        state := Listen;
        snd := ResetSnd(Add(snd.iss, RST_JUMP), snd.wnd);
        rcv := ResetRcv(rcv.wnd, MixIrs(rcv.irs));
      } else {
        CloseAll();
        return NetClosed;
      }
      return DropSegment;
    }

    /** The first checks of validateIncomingSegment. */
    method CheckWindow(seg: Segment) returns (err: Err)
      ensures err == CheckIncoming(View(), seg)
    {
      var checkSeq := !seg.flags.HasAny(SYN);
      var zeroWindowOk := rcv.wnd == 0 && seg.dataLen == 0 && seg.seqno == rcv.nxt;
      err := NoError;
      if seg.wnd > MAX_WINDOW {
        err := WindowOverflow;
      } else if state == Closed {
        err := ClosedPipe;
      } else if checkSeq && rcv.wnd == 0 && seg.dataLen > 0 && seg.seqno == rcv.nxt {
        err := ZeroWindow;
      } else if checkSeq && !InWindow(seg.seqno, rcv.nxt, rcv.wnd) && !zeroWindowOk {
        err := SeqNotInWindow;
      } else if checkSeq && !InWindow(seg.Last(), rcv.nxt, rcv.wnd) && !zeroWindowOk {
        err := LastNotInWindow;
      } else if checkSeq && seg.seqno != rcv.nxt {
        err := RequireSequential;
      }
    }

    method ValidateIncoming(seg: Segment) returns (err: Err)
      modifies this
      ensures Result(View(), err) == Control.ValidateIncoming(old(View()), seg)
    {
      var hasAck := seg.flags.HasAll(ACK);
      var established := state == Established;
      var preestablished := state.IsPreestablished();
      var acksOld := hasAck && !LessThan(snd.una, seg.ackno);
      var acksUnsentData := hasAck && !LessThanEq(seg.ackno, snd.nxt);
      var ctlOrData := established && (seg.dataLen > 0 || seg.flags.HasAny(FIN.Or(RST)));
      err := CheckWindow(seg);
      if err != NoError {
        return;
      }
      if seg.flags.HasAny(RST) {
        err := HandleRst(seg.seqno);
        return;
      }
      if established && acksOld && !ctlOrData {
        err := DropSegment;
        pending0 := pending0.And(FIN);
      } else if established && acksUnsentData {
        err := DropSegment;
        pending0 := ACK;
      } else if preestablished && (acksOld || acksUnsentData) {
        err := DropSegment;
        pending0 := RST;
        rstPtr := seg.ackno;
        snd := ResetSnd(snd.iss, seg.wnd);
      }
    }

    /** The handlers of the synchronisation states (rcvListen, rcvSynSent, rcvSynRcvd). */
    method ReceiveOpening(seg: Segment) returns (pending: Flags, err: Err)
      requires state.IsPreestablished()
      modifies this
      ensures Handled(View(), pending, err) == Handle(old(View()), seg)
    {
      pending, err := NO_FLAGS, NoError;
      match state {
        case Listen =>
          if !seg.flags.HasAll(SYN) {
            return NO_FLAGS, ExpectedSyn;
          }
          snd := ResetSnd(snd.iss, seg.wnd);
          rcv := ResetRcv(rcv.wnd, seg.seqno);
          pending0 := SYNACK;
          state := SynRcvd;
          pending := SYNACK;
        case SynSent =>
          var hasSyn := seg.flags.HasAny(SYN);
          var hasAck := seg.flags.HasAny(ACK);
          if !hasSyn {
            return NO_FLAGS, ExpectedSyn;
          } else if hasAck && seg.ackno != Add(snd.una, 1) {
            return NO_FLAGS, BadSegAck;
          }
          if hasAck {
            state := Established;
            pending := ACK;
            rcv := ResetRcv(rcv.wnd, seg.seqno);
          } else {
            pending := SYNACK;
            state := SynRcvd;
            snd := ResetSnd(snd.iss, seg.wnd);
            rcv := ResetRcv(rcv.wnd, seg.seqno);
          }
        case SynRcvd =>
          if seg.ackno != Add(snd.una, 1) {
            return NO_FLAGS, BadSegAck;
          }
          state := Established;
      }
    }

    /** The handlers of the states from Established on (rcvEstablished, rcvFinWait1, rcvFinWait2). */
    method ReceiveSynchronized(seg: Segment) returns (pending: Flags, err: Err)
      requires state.Established? || state.FinWait1? || state.FinWait2?
      modifies this
      ensures Handled(View(), pending, err) == Handle(old(View()), seg)
    {
      pending, err := NO_FLAGS, NoError;
      var hasFin := seg.flags.HasAny(FIN);
      var hasAck := seg.flags.HasAny(ACK);
      match state {
        case Established =>
          if seg.dataLen > 0 || hasFin {
            pending := ACK;
            if hasFin {
              state := CloseWait;
              pending1 := FIN;
            }
          }
        case FinWait1 =>
          if hasFin && hasAck && seg.ackno == snd.nxt {
            state := TimeWait;
          } else if hasFin {
            state := Closing;
          } else if hasAck {
            state := FinWait2;
          } else {
            return NO_FLAGS, FinWaitExpectedAck;
          }
          pending := ACK;
        case FinWait2 =>
          if !seg.flags.HasAll(FINACK) {
            return NO_FLAGS, FinWaitExpectedFinAck;
          }
          state := TimeWait;
          pending := ACK;
      }
    }

    /** Every error other than a dropped segment and a reset leaves the whole block as it was. */
    method Recv(seg: Segment) returns (err: Err)
      modifies this
      ensures Result(View(), err) == Control.Recv(old(View()), seg)
      ensures err != NoError && err != DropSegment && err != NetClosed ==> View() == old(View())
    {
      err := ValidateIncoming(seg);
      if err != NoError {
        return;
      }
      var pending := NO_FLAGS;
      match state {
        case Listen =>
          pending, err := ReceiveOpening(seg);
        case SynSent =>
          pending, err := ReceiveOpening(seg);
        case SynRcvd =>
          pending, err := ReceiveOpening(seg);
        case Established =>
          pending, err := ReceiveSynchronized(seg);
        case FinWait1 =>
          pending, err := ReceiveSynchronized(seg);
        case FinWait2 =>
          pending, err := ReceiveSynchronized(seg);
        case CloseWait =>
        case LastAck =>
          if seg.flags.HasAny(ACK) {
            CloseAll();
          }
        case Closing =>
          if seg.flags.HasAny(ACK) {
            state := TimeWait;
          }
        case _ =>
          err := PanicUnexpectedState;
      }
      if err != NoError {
        return;
      }
      AcceptSegment(seg, pending);
    }

    /** The update every accepted segment makes. */
    method AcceptSegment(seg: Segment, pending: Flags)
      modifies this
      ensures View() == Accept(old(View()), seg, pending)
    {
      pending0 := pending0.Or(pending);
      snd := snd.(wnd := seg.wnd);
      if seg.flags.HasAny(ACK) {
        snd := snd.(una := seg.ackno);
      }
      rcv := rcv.(nxt := Add(rcv.nxt, seg.Len()));
    }
  }
}
