/** Open and Close of a control block, said by what the block does afterwards (control_user.go): which calls are
    refused, that a refused Open leaves a connection alone over whole runs, and what a Close comes to. */
module UserCalls {
  import opened SeqNum
  import opened Segments
  import opened Control
  import opened Lifecycle

  // ---------------------------------------------------------------------------------------------
  // Open

  /** Open succeeds exactly on a block that is Closed or listens, towards Listen or SynSent, with a window of 16 bits.
      Otherwise the block is as it was, and the first of the three that fails is reported. */
  lemma {:induction false} OpenIff(b: Block, iss: Value, wnd: Size, state: State)
    ensures var r := Open(b, iss, wnd, state);
            && (r.err == NoError <==> b.state in {Closed, Listen} && state in {Listen, SynSent} && wnd <= 65535)
            && (r.err == TcbNotClosed <==> b.state !in {Closed, Listen})
            && (r.err == InvalidState <==> b.state in {Closed, Listen} && state !in {Listen, SynSent})
            && (r.err != NoError ==> r.block == b)
  {
  }

  /** A new block is Closed, with no numbers, no window and nothing to send. Every Open that may be is possible. */
  lemma {:induction false} NewBlock(iss: Value, wnd: Size, state: State, n: nat)
    ensures ZERO_BLOCK.state == Closed && EmitPending(ZERO_BLOCK, n) == Idle(ZERO_BLOCK)
    ensures ZERO_BLOCK.snd == SendSpace(0, 0, 0, 0) && ZERO_BLOCK.rcv == RecvSpace(0, 0, 0)
    ensures ZERO_BLOCK.pending1 == NO_FLAGS && ZERO_BLOCK.rstPtr == 0
    ensures Open(ZERO_BLOCK, iss, wnd, state).err == NoError <==> state in {Listen, SynSent} && wnd <= 65535
    ensures Close(ZERO_BLOCK) == Result(ZERO_BLOCK, ConnNotExist)
  {
  }

  /** A run in which the user also calls Open, at any time and with anything. */
  datatype Call = Does(step: Step) | Opens(iss: Value, wnd: Size, state: State)

  function Called(b: Block, c: Call): Block {
    match c
    case Does(step) => Apply(b, step)
    case Opens(iss, wnd, state) => Open(b, iss, wnd, state).block
  }

  function AfterCalls(b: Block, calls: seq<Call>): Block
    decreases |calls|
  {
    if calls == [] then b else AfterCalls(Called(b, calls[0]), calls[1..])
  }

  /** How many of the calls of Open succeed. */
  function OpensTaken(b: Block, calls: seq<Call>): nat
    decreases |calls|
  {
    if calls == [] then 0
    else
      var c := calls[0];
      (if c.Opens? && Open(b, c.iss, c.wnd, c.state).err == NoError then 1 else 0)
      + OpensTaken(Called(b, c), calls[1..])
  }

  /** The run without the calls of Open. */
  function Steps(calls: seq<Call>): seq<Step> {
    if calls == [] then [] else (if calls[0].Does? then [calls[0].step] else []) + Steps(calls[1..])
  }

  /** Neither Closed nor Listen at any point. */
  predicate Busy(t: seq<State>) {
    forall i :: 0 <= i < |t| ==> t[i] !in {Closed, Listen}
  }

  /** A connection that is neither Closed nor listening goes on as if Open had not been called. */
  lemma {:induction false} OpensChangeNothing(b: Block, calls: seq<Call>)
    requires Busy(Trace(b, Steps(calls)))
    ensures AfterCalls(b, calls) == After(b, Steps(calls)) && OpensTaken(b, calls) == 0
    decreases |calls|
  {
    assert Trace(b, Steps(calls))[0] == b.state;
    if calls != [] {
      var c := calls[0];
      var b' := Called(b, c);
      if c.Does? {
        var steps := Steps(calls);
        assert steps[0] == c.step && steps[1..] == Steps(calls[1..]);
        assert Trace(b, steps)[1..] == Trace(b', steps[1..]);
      } else {
        OpenIff(b, c.iss, c.wnd, c.state);
        assert Steps(calls) == Steps(calls[1..]);
      }
      OpensChangeNothing(b', calls[1..]);
    }
  }

  /** Once closed, closed at every later point. */
  lemma {:induction false} NotClosedBefore(b: Block, steps: seq<Step>)
    requires b.state.IsSynchronized() && !After(b, steps).state.Closed?
    ensures Busy(Trace(b, steps))
    decreases |steps|
  {
    if steps != [] {
      var b' := Apply(b, steps[0]);
      StepClimbs(b, steps[0]);
      if b'.state.Closed? {
        ClosedStays(b', steps[1..]);
      }
      NotClosedBefore(b', steps[1..]);
    }
  }

  /** No Open ends a synchronized connection: whatever is called and arrives, the block is the one of the run without
      the calls of Open, until that is Closed. */
  lemma {:induction false} OpenSparesConnection(b: Block, calls: seq<Call>)
    requires b.state.IsSynchronized() && !After(b, Steps(calls)).state.Closed?
    ensures AfterCalls(b, calls) == After(b, Steps(calls)) && OpensTaken(b, calls) == 0
  {
    NotClosedBefore(b, Steps(calls));
    OpensChangeNothing(b, calls);
  }

  /** What an opened block does: a dialing one sends its SYN at the number it was given, to which no data may be joined,
      and then waits; a listening one says nothing. */
  lemma {:induction false} OpenedSends(b: Block, iss: Value, wnd: Size, state: State, n: nat, d: Size)
    requires Open(b, iss, wnd, state).err == NoError && !b.challengeAck
    ensures var o := Open(b, iss, wnd, state).block;
            var syn := Segment(iss, 0, 0, wnd, NO_FLAGS.(syn := true));
            && o.state == state && o.rcv == RecvSpace(0, 0, wnd)
            && (Send(o, syn.(dataLen := d)).err == NoError <==> d == 0 || d == 0xffff_ffff)
            && (state.Listen? ==> EmitPending(o, n) == Idle(o))
            && (state.SynSent? ==>
                  && EmitPending(o, n).Sent? && EmitPending(o, n).seg == syn
                  && EmitPending(EmitPending(o, n).block, n).Idle?)
  {
    WithoutAll(SYN, SYN);
  }

  // ---------------------------------------------------------------------------------------------
  // What a run sends and takes

  function SentIn(b: Block, steps: seq<Step>): nat
    decreases |steps|
  {
    if steps == [] then 0
    else
      (if steps[0].Emit? && EmitPending(b, steps[0].n).Sent? then 1 else 0) + SentIn(Apply(b, steps[0]), steps[1..])
  }

  function TakenIn(b: Block, steps: seq<Step>): nat
    decreases |steps|
  {
    if steps == [] then 0
    else
      (if steps[0].Receive? && Recv(b, steps[0].seg).err == NoError then 1 else 0)
      + TakenIn(Apply(b, steps[0]), steps[1..])
  }

  lemma {:induction false} ClosedStep(b: Block, s: Step)
    requires b.state.Closed?
    ensures Apply(b, s).state.Closed?
    ensures s.Emit? ==> !EmitPending(b, s.n).Sent?
    ensures s.Receive? ==> Recv(b, s.seg).err in {ClosedPipe, WindowOverflow}
    ensures s.UserClose? ==> Close(b) == Result(b, ConnNotExist)
  {
  }

  lemma {:induction false} ClosedStays(b: Block, steps: seq<Step>)
    requires b.state.Closed?
    ensures After(b, steps).state.Closed? && SentIn(b, steps) == 0 && TakenIn(b, steps) == 0
    decreases |steps|
  {
    if steps != [] {
      ClosedStep(b, steps[0]);
      ClosedStays(Apply(b, steps[0]), steps[1..]);
    }
  }

  /** Until a segment arrives, a listening block sends nothing, whatever else is done. */
  lemma {:induction false} ListenerIsSilent(b: Block, iss: Value, wnd: Size, steps: seq<Step>)
    requires Open(b, iss, wnd, Listen).err == NoError && !b.challengeAck
    requires forall i :: 0 <= i < |steps| ==> !steps[i].Receive?
    ensures SentIn(Open(b, iss, wnd, Listen).block, steps) == 0
  {
    QuietStays(Open(b, iss, wnd, Listen).block, steps);
  }

  lemma {:induction false} QuietStays(b: Block, steps: seq<Step>)
    requires (b.state.Listen? || b.state.Closed?) && b.pending0 == NO_FLAGS && !b.challengeAck
    requires forall i :: 0 <= i < |steps| ==> !steps[i].Receive?
    ensures SentIn(b, steps) == 0
    decreases |steps|
  {
    if steps != [] {
      QuietStays(Apply(b, steps[0]), steps[1..]);
    }
  }

  // ---------------------------------------------------------------------------------------------
  // Close

  /** Close succeeds exactly in the five states in which this side has a connection and has not closed it. It changes
      nothing in the others, of which only Closed has no connection. */
  lemma {:induction false} CloseIff(b: Block)
    ensures var r := Close(b);
            && (r.err == NoError <==> b.state in {Listen, SynSent, SynRcvd, Established, CloseWait})
            && (r.err == ConnNotExist <==> b.state == Closed)
            && (r.err == ConnectionClosing <==> b.state in {FinWait2, TimeWait})
            && (r.err != NoError ==> r.block == b)
  {
  }

  /** Close in Listen and SynSent is final: over every run of arrivals, sends and user calls up to the next Open,
      nothing is sent, nothing is taken, and the block stays Closed. */
  lemma {:induction false} CloseBeforeHandshake(b: Block, steps: seq<Step>)
    requires b.state in {Listen, SynSent}
    ensures var r := Close(b);
            && r.err == NoError && SentIn(r.block, steps) == 0 && TakenIn(r.block, steps) == 0
            && r.block.rcv == RecvSpace(0, 0, 0) && r.block.snd == SendSpace(0, 0, 0, 0)
            && After(r.block, steps).state.Closed?
  {
    ClosedStays(Close(b).block, steps);
  }

  /** Close in SynRcvd and Established: the next segment is the FIN at the next number, with the acknowledgment if one
      was pending or the block is established. It goes out whatever the peer's window is, and the block waits for its
      acknowledgment. In SynRcvd a SYN that is still pending is given up. */
  lemma {:induction false} CloseSendsFin(b: Block)
    requires b.state in {SynRcvd, Established} && !b.challengeAck && b.rcv.wnd <= 65535
    ensures var r := Close(b);
            var e := EmitPending(r.block, 0);
            var ack := b.state.Established? || b.pending0.ack;
            && r.err == NoError && e.Sent?
            && r.block == b.(pending0 := NO_FLAGS.(fin := true, ack := b.pending0.ack))
            && e.seg == Segment(b.snd.nxt, if ack then b.rcv.nxt else 0, 0, b.rcv.wnd,
                                NO_FLAGS.(fin := true, ack := ack))
            && e.block.state == FinWait1 && e.block.snd.nxt == Add(b.snd.nxt, 1)
            && !e.block.pending0.fin && e.block.pending0.ack == b.pending1.ack
  {
    var b' := Close(b).block;
    var f := if b.state.Established? then b'.pending0.Or(ACK) else b'.pending0;
    assert b'.pending0 == NO_FLAGS.(fin := true, ack := b.pending0.ack);
    assert f == NO_FLAGS.(fin := true, ack := b.state.Established? || b.pending0.ack);
    WithoutAll(b'.pending0, f);
  }

  /** Close in CloseWait: the FIN goes out alone, and the acknowledgment of the peer's in a second segment. */
  lemma {:induction false} CloseInCloseWait(b: Block)
    requires b.state == CloseWait && !b.challengeAck && b.rcv.wnd <= 65535
    ensures var r := Close(b);
            var e := EmitPending(r.block, 0);
            var e2 := EmitPending(e.block, 0);
            && r.err == NoError && e.Sent? && e2.Sent?
            && e.seg == Segment(b.snd.nxt, 0, 0, b.rcv.wnd, NO_FLAGS.(fin := true))
            && e2.seg == Segment(Add(b.snd.nxt, 1), b.rcv.nxt, 0, b.rcv.wnd, NO_FLAGS.(ack := true))
            && e2.block.state == LastAck && EmitPending(e2.block, 0).Idle?
  {
    WithoutAll(FIN, FIN);
    WithoutAll(ACK, ACK);
    assert ACK.Without(FIN) == ACK;
  }
}
