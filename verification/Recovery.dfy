/** Recovery from an old duplicate SYN: Figure 8 in section 3.5 of RFC 9293, between two control blocks. */
module Recovery {
  import opened SeqNum
  import opened Segments
  import opened Control
  import opened Pair

  /** What the listener answers to a SYN with number stale. */
  function StaleSynAck(c: Config, stale: Value): Segment {
    Segment(c.issB, Add(stale, 1), 0, c.wndB, SYNACK)
  }

  /** The reset that answers it. */
  function BelievableRst(c: Config, stale: Value): Segment {
    Segment(Add(stale, 1), 0, 0, c.wndA, RST)
  }

  /** The opener with its SYN out, after it has been given the stale SYN|ACK. */
  function ResettingA(c: Config, stale: Value): Block {
    SynSentA(c).(snd := ResetSnd(c.issA, c.wndB), pending0 := RST, rstPtr := Add(stale, 1))
  }

  /** The stale SYN, with whatever window its sender had then. */
  function StaleSyn(stale: Value, wnd: Size): Segment {
    Segment(stale, 0, 0, wnd, SYN)
  }

  /** The listener after it has answered the stale SYN. */
  function Misled(c: Config, stale: Value, wnd: Size): Block {
    SynAckSentB(c.(issA := stale, wndA := wnd))
  }

  /** Every acknowledgment number but the right one is either old or unsent, at any distance. */
  lemma StaleAckIsScreened(iss: Value, stale: Value)
    requires stale != iss
    ensures !LessThan(iss, Add(stale, 1)) || !LessThanEq(Add(stale, 1), Add(iss, 1))
  {
  }

  lemma {:induction false} ListenerMisled(c: Config, stale: Value, wnd: Size)
    requires c.Valid() && wnd <= MAX_WINDOW
    ensures Recv(Opened(c).b, StaleSyn(stale, wnd)) == Result(SynRcvdB(c.(issA := stale, wndA := wnd)), NoError)
    ensures EmitPending(SynRcvdB(c.(issA := stale, wndA := wnd)), 0)
            == Sent(Misled(c, stale, wnd), StaleSynAck(c, stale))
  {
  }

  /** The stale SYN|ACK is not believed; the reset that answers it carries the number that makes it believable. */
  lemma {:induction false} OpenerResets(c: Config, stale: Value)
    requires c.Valid() && stale != c.issA
    ensures Recv(SynSentA(c), StaleSynAck(c, stale)) == Result(ResettingA(c, stale), DropSegment)
    ensures EmitPending(ResettingA(c, stale), 0)
            == Sent(ResettingA(c, stale).(pending0 := NO_FLAGS), BelievableRst(c, stale))
  {
    StaleAckIsScreened(c.issA, stale);
  }

  /** The listener believes the reset and listens again under a new initial number. */
  lemma {:induction false} ListenerReturns(c: Config, stale: Value, wnd: Size) returns (b: Block)
    requires c.Valid()
    ensures Recv(Misled(c, stale, wnd), BelievableRst(c, stale)) == Result(b, DropSegment)
    ensures b.state.Listen? && b.snd.iss == Add(c.issB, RST_JUMP) && b.rcv.wnd == c.wndB
    ensures b.pending0 == NO_FLAGS && b.pending1 == NO_FLAGS && b.rstPtr == 0 && !b.challengeAck
  {
    b := Recv(Misled(c, stale, wnd), BelievableRst(c, stale)).block;
  }

  /** The opener's second SYN, passed through Send. */
  lemma {:induction false} SynResent(c: Config, stale: Value)
    requires c.Valid()
    ensures var a := ResettingA(c, stale).(pending0 := NO_FLAGS);
            Send(a, Syn(c)) == Result(a.(snd := a.snd.(nxt := Add(c.issA, 1))), NoError)
  {
  }

  lemma {:induction false} ListenerAnswers(b: Block, c: Config)
    requires c.Valid() && b.state.Listen? && b.snd.iss == c.issB && b.rcv.wnd == c.wndB
    requires b.pending0 == NO_FLAGS && b.pending1 == NO_FLAGS && b.rstPtr == 0 && !b.challengeAck
    ensures Recv(b, Syn(c)) == Result(SynRcvdB(c), NoError)
    ensures EmitPending(SynRcvdB(c), 0) == Sent(SynAckSentB(c), SynAck(c))
  {
  }

  /** Lines 2 to 5 of the figure: the opener's SYN goes out and is held up, the stale one is answered, the
      answer is doubted and reset, and the listener listens again under its number plus 100. */
  ghost predicate Misguided(c: Config, stale: Value, wnd: Size, a: Block, b: Block) {
    var syn := EmitPending(Opened(c).a, 0);
    var misled := Recv(Opened(c).b, StaleSyn(stale, wnd));
    var answer := EmitPending(misled.block, 0);
    && syn.Sent? && syn.seg == Syn(c) && misled.err == NoError && answer.Sent?
    && var doubted := Recv(syn.block, answer.seg);
       var reset := EmitPending(doubted.block, 0);
       && doubted.err == DropSegment && doubted.block.state.SynSent?
       && reset.Sent? && reset.seg.flags == RST && reset.block == a
       && Recv(answer.block, reset.seg) == Result(b, DropSegment)
       && b.state.Listen? && b.snd.iss == Add(c.issB, RST_JUMP)
  }

  lemma {:induction false} StaleSynIsReset(c: Config, stale: Value, wnd: Size) returns (b: Block)
    requires c.Valid() && stale != c.issA && wnd <= MAX_WINDOW
    ensures Misguided(c, stale, wnd, ResettingA(c, stale).(pending0 := NO_FLAGS), b)
    ensures b.rcv.wnd == c.wndB
    ensures b.pending0 == NO_FLAGS && b.pending1 == NO_FLAGS && b.rstPtr == 0 && !b.challengeAck
  {
    ListenerMisled(c, stale, wnd);
    OpenerResets(c, stale);
    b := ListenerReturns(c, stale, wnd);
    assert EmitPending(Opened(c).a, 0) == Sent(SynSentA(c), Syn(c));
  }

  /** For all initial numbers, all windows (the stale SYN's included) and every stale number other than the opener's
      own, at every distance: the exchange of Figure 8 ends with both sides established, in step and in agreement on
      the initial numbers, the listener's having jumped by 100. */
  lemma {:induction false} StaleSynRecovery(c: Config, stale: Value, wnd: Size)
    returns (a1: Block, b1: Block, a2: Block, b2: Block)
    requires c.Valid() && stale != c.issA && wnd <= MAX_WINDOW
    ensures Misguided(c, stale, wnd, a1, b1) && Send(a1, Syn(c)).err == NoError
    ensures Completes(Send(a1, Syn(c)).block, b1, Syn(c), c.(issB := Add(c.issB, RST_JUMP)), a2, b2)
  {
    var c' := c.(issB := Add(c.issB, RST_JUMP));
    a1 := ResettingA(c, stale).(pending0 := NO_FLAGS);
    b1 := StaleSynIsReset(c, stale, wnd);
    SynResent(c, stale);
    ListenerAnswers(b1, c');
    a2, b2 := HandshakeFrom(a1.(snd := a1.snd.(nxt := Add(c.issA, 1))), b1, c');
  }

  /** From here the three remaining segments of the handshake are exchanged and taken. */
  ghost predicate Completes(a: Block, b: Block, syn: Segment, c: Config, a': Block, b': Block) {
    var taken := Recv(b, syn);
    var synAck := EmitPending(taken.block, 0);
    && taken.err == NoError && synAck.Sent?
    && var est := Recv(a, synAck.seg);
       var ack := EmitPending(est.block, 0);
       && est.err == NoError && ack.Sent? && ack.block == a'
       && Recv(synAck.block, ack.seg) == Result(b', NoError)
       && InStep(Net(a', b', [], []))
       && a'.snd.iss == b'.rcv.irs == c.issA && b'.snd.iss == a'.rcv.irs == c.issB
  }

  lemma {:induction false} HandshakeFrom(a: Block, b: Block, c: Config) returns (a': Block, b': Block)
    requires c.Valid() && a.state.SynSent? && a.pending0 == NO_FLAGS && a.pending1 == NO_FLAGS && !a.challengeAck
    requires a.snd.iss == a.snd.una == c.issA && a.snd.nxt == Add(c.issA, 1) && a.rcv.wnd == c.wndA
    requires Recv(b, Syn(c)) == Result(SynRcvdB(c), NoError)
    requires EmitPending(SynRcvdB(c), 0) == Sent(SynAckSentB(c), SynAck(c))
    ensures Completes(a, b, Syn(c), c, a', b')
  {
    OpenerTakesSynAck(a, c);
    OpenerAcknowledges(a, c);
    ListenerTakesAck(SynAckSentB(c), c);
    a' := EstablishedA(a, c).(pending0 := NO_FLAGS);
    b' := Recv(SynAckSentB(c), FinalAckSeg(c)).block;
  }

  /** The second SYN has to pass through Send, because the stale SYN|ACK has taken SND.NXT back to the initial number:
      the opener takes the right SYN|ACK exactly when SND.NXT is past its SYN. If the first SYN arrives late, or is
      repeated without Send, the block makes another reset pending instead. */
  lemma {:induction false} ResendMustPassSend(c: Config, a: Block)
    requires c.Valid() && a.state.SynSent? && a.snd.iss == a.snd.una == c.issA
    requires a.snd.nxt == c.issA || a.snd.nxt == Add(c.issA, 1)
    ensures Recv(a, SynAck(c)).err == NoError <==> a.snd.nxt == Add(c.issA, 1)
    ensures a.snd.nxt == c.issA ==>
              Recv(a, SynAck(c))
              == Result(a.(pending0 := RST, rstPtr := Add(c.issA, 1), snd := ResetSnd(c.issA, c.wndB)), DropSegment)
  {
  }
}
