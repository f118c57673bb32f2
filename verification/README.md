# A verified model of the seqs TCP stack

This project models the hard core of `seqs`, a TCP/IP stack in Go for small devices, and proves what the code is for:

- **The TCP control block** (`SeqNum`, `Segments`, `Control`, `ControlBlocks`). `ControlBlock` is a class whose
  methods update its fields as the program does. Each method is proved to take the block to the value that the
  functions of `Control` give, and everything else is proved about those functions. Sequence numbers are 32-bit
  with the wrap-around written out.
- **The control block over unbounded integers** (`Ideal`, `Refinement`). A block that counts octets without
  wrap-around, stated with integer order and intervals only. The 32-bit block is proved to refine it.
- **A connection built from two blocks** (`Flows`, `Pair`, `Recovery`, `ClosingPair`, `Hostile`, `Acks`,
  `Halfway`, `Edges`). Two blocks joined by queues: handshake, data transfer, stale SYN, closing with Close called in
  any state, and a network that drops, duplicates and reorders, with its acknowledgments and windows.
- **One block against any peer** (`Lifecycle`, `UserCalls`, `Refusals`). What every run keeps, whatever arrives; what
  Open and Close mean for the run that follows; why segments are refused.
- **The byte stream** (`Rings`, `Conns`, `TcpConns`, `Dialing`, `Opening`, `Handshake`, `Stream`, `Stalls`,
  `Draining`, `Delayed`, `Reports`, `Lossy`). Ring buffers that refine queues, connections that couple them to control
  blocks, every run from Open through the handshake to bytes out equal bytes in, when bytes stop moving, what happens to
  them on close, when a connection is over, and what a user reads over a bad network.
- **The wire** (`Checksum`, `Headers`, `Wire`, `Calculating`, `Admission`, `Packets`, `Framing`). The incremental
  Internet checksum, header layouts, a segment's way from one stack to another, exactly which frames reach a handler,
  and the byte stream over the bytes of Ethernet frames.
- **DNS and NTP** (`DnsNames`, `DnsChains`, `DnsDomains`, `DnsMessages`, `DnsLayout`, `DnsCodec`, `DnsPanics`,
  `DnsBuffers`, `Ntp`). Compressed names, exactly which domains make names and which names decode, message round trip
  with limited capacities, exactly when parsing and printing panic, and timestamp arithmetic.

`dafny verify dfyconfig.toml` checks the whole project.

## How the model is built

A Go method that updates fields is a Dafny method with a `modifies` clause, specified by a function on values;
`View()` (or `Contents()`, or the ghost `fed`) is the value of an object. Panics are results (`Panic`, `Crash`,
`PanicUnexpectedState`, `SendPanic`, `Crashed`), so that their absence is something to prove. Go's truncating
conversions and 16- and 32-bit sums are written out. Flags are a record of nine booleans. Positions in a stream are
integers and `Wrap` takes them to sequence numbers.

## What the code does not do as promised

Each behaviour below is a lemma with a concrete input or a whole family of inputs, and where the code is right under a
condition, the condition is stated and proved to be exact. The last three are differences from the documentation.

- **A dialing connection can wait for ever.** An answer that acknowledges anything but the SYN makes the control block
  forget that its SYN is out, and a connection in SynSent sends nothing but its SYN (stacks/tcpconn.go:388-395), so
  that the pending reset never leaves. `Dialing.EstablishedIff`: it is established if and only if the first answer that
  decides is the right SYN-ACK; `Dialing.WedgedLeavesIff`: exactly what still gets it out. At the level of control
  blocks the recovery of Figure 8 works if and only if the SYN passes through `Send` again
  (`Recovery.ResendMustPassSend`).
- **Bytes can stop moving.** A pending acknowledgment is withheld while bytes wait for a window with no room
  (control.go:118-120), and reading sends no window update. `Stalls.StallIff`, `Stalls.HelplessIff` and
  `Stalls.DeadIff` say exactly when nothing moves again, without writes, with them, and with `Close` too;
  `Stalls.FreshMayStall` and `Stalls.FreshMayStarve` reach such states with traffic in both directions and in one;
  `Stalls.StalledNext` says which writes end a stall.
- **`Close` in CloseWait can strand the peer.** It replaces the queued FIN-ACK by a FIN and an ACK in two segments
  (control_user.go:82-84). `ClosingPair.GracefulClose`: both sides finish if and only if no `Close` was called in
  CloseWait after the acknowledgment of the peer's FIN had gone out; `ClosingPair.CloseMayBeLate` is such a run from
  every pair, and `ClosingPair.LateCloseStrands` says how it ends.
- **`SND.UNA` can go back.** `Acks.EstablishedGoesBackIff` gives the segments that do it to an established block.
  Between two blocks over a bad network there are none of them below 2^31 octets (`Acks.UnaNeverGoesBack`), and
  `Acks.GoesBackExactlyAtHalf` says which there are beyond; `Halfway.GoesBackAtHalf` is a run that meets one after
  exactly 2^31 octets. A closing block does not screen acknowledgments:
  `Acks.FinWait1GoesOnIff`, with the run of `Acks.ClosingSideGoesBack`.
- **Bytes are lost in the handshake.** A listener whose transmit ring is full as it sends its SYN-ACK loses all of it.
  `Handshake.OpenedEndToEnd`: nothing else is ever lost; `Handshake.HastyListenerLoses` is the family of runs.
- **Bytes are acknowledged and thrown away.** Receiving does not reduce `RCV.WND`, so that a peer that ignores the
  acknowledgments can overrun the ring (`Draining.StaleWindowOverruns`). `Draining.CountedIff`: everything counted is
  read or buffered if and only if no segment overran the ring, and `Draining.OverrunIff` says which do; between two
  connections of this stack none does (`Lossy.ReadsAPrefix`).
- **Bytes are lost on close.** Those waiting to be sent when the peer's FIN is accepted are never sent
  (`Draining.PeerCloseStrands`), and those buffered then can never be read (`Draining.PeerCloseHidesBytes`).
- **An offer can be refused by its own `Send`.** `Lifecycle.SendableIff`: exactly when the block owed a challenge
  acknowledgment; a segment that combines SYN and RST makes it owe one (`Lifecycle.SynRstBreaksSendable`).
- **A block may send beyond the peer's window.** When the peer takes back a part of its window, so that more is in
  flight than there is room for, an unsigned difference wraps around and the block sends as though nothing were in
  flight (control.go:82-94): `Refusals.SendsBeyondWindowIff`, with the run of `Refusals.ShrunkWindowExample`.
  `Refusals.OfferPanicsIff` says when it panics instead.
- **A connection that closes second lingers.** When its FIN is acknowledged its block is Closed, but the user has called
  Close and sees FinWait1, and so the end is not reported (stacks/tcpconn.go:508-511) until it has been idle for three
  seconds or another segment arrives: `Reports.PassiveCloseLingers`.
- **Close can take back a SYN.** In SynRcvd the FIN replaces a SYN that is still pending (control_user.go:87-90):
  `UserCalls.CloseSendsFin`.
- **A control block can forget a Close.** A segment that acknowledges what was never sent erases the pending FIN
  (control.go:333-335): `Delayed.CloseForgottenIff`, exactly those segments do. A connection looks again, and its FIN
  goes out one segment later: `Delayed.FinGoesOutIff`.
- `Admission.HandledIff`: a checksum field of 0xffff is always refused, though RFC 1071 takes it for zero.
- `Conns.ReadKeepsBytes`: a read into an empty destination loses everything a full ring holds.
- `Headers.DirectIsStandard`: the direct TCP checksum leaves the urgent pointer out.
- `Wire.PayloadNeedsNoIpOptions`: with IP options the payload is cut short.
- `Checksum.ExactUntilOverflow`: the 32-bit sum loses a carry at each overflow.
- `DnsNames.LongMayPanic`: the label walker can panic in messages of more than 65472 bytes, and in none that are
  shorter. `DnsPanics.DecodePanicsIff`: parsing those panics exactly when it comes to skip a truncated resource.
- `DnsMessages.SkipAgrees`: skipping a resource reads its length unchecked and counts in 16 bits, so that it may
  accept what decoding refuses, as in the 23 bytes of `DnsMessages.SkipGoesBack`.
- `DnsBuffers.PrintsIff`: above 65535 bytes printing may panic for want of capacity, as `DnsBuffers.HeavyPanics` does.
- `Ntp.NegativeAddThenSub`: adding a negative duration is right exactly for whole seconds.
- `TcpConns.NewTCPConn` panics exactly when its two buffer sizes together exceed 65535.
- `PendingSegment` is documented not to modify the block; it clears the challenge flag (control.go:98-104).
- `CRC791.Write` returns one less than the bytes it took when the first of them completed a word.
- The name of the root has an empty `String` (`DnsNames.RootString`).

## Model

| member | source | states |
|---|---|---|
| `Stream.EndToEnd` | stacks/tcpconn.go:334-431 | Two established connections over lossless FIFO links, any list of Write, Read (non-empty), send and recv on either side: nothing is refused, no payload finds the receive ring full, nothing panics, and in both directions the bytes written are the bytes read, then those buffered, in flight and unsent |
| `Framing.FramedEndToEnd` | stacks/tcpconn.go:334-431 | The same with the bytes of Ethernet frames in flight, made by CalculateHeaders and PutHeaders and taken apart by RecvEth, with any identification numbers, padding and leftovers in the packet buffers: no frame or segment is refused and every byte is accounted for |
| `Framing.AnyFaithfulWire` | stacks/tcpconn.go:334-431 | The same over any way of making and taking apart frames that gives packets back |
| `Framing.WireIsFaithful` | stacks/portstack.go:163-217 | The frames of this stack give back every packet within the MTU |
| `Opening.OpenedConnsConnect` | stacks/tcpconn.go:281-299 | For all initial numbers, ring sizes up to 65535 and response sizes: a dialing and a listening connection exchange their three segments and are then a fresh pair that agrees on the initial numbers |
| `Handshake.OpenedEndToEnd` | stacks/tcpconn.go:281-431 | From the two Open calls, for all initial numbers, windows and ring sizes, every list of writes, reads, sends and receives in every interleaving runs to its end: nothing is refused, overruns a ring or panics. The bytes the opener wrote are those read, buffered, in flight and unsent; so are the listener's if and only if its transmit ring was not full as it sent its SYN-ACK |
| `Handshake.HastyListenerLoses` | stacks/tcpconn.go:412-420 | For all numbers, windows and sizes: a listener whose user fills the transmit ring before the SYN-ACK goes out loses those bytes |
| `Handshake.SynAckEmpties` | stacks/tcpconn.go:412-420 | Sending the SYN-ACK leaves the transmit ring as it is, except that it empties a full one |
| `Handshake.DialStep` | stacks/tcpconn.go:334-431 | Every event of such a run goes on, and loses bytes exactly at a SYN-ACK sent with a full ring |
| `Stream.SendWorks` | stacks/tcpconn.go:383-431 | A connection in step with its peer sends nothing or the next bytes of its transmit queue; it never fails, and the advertised right edge never retreats |
| `Stream.RecvWorks` | stacks/tcpconn.go:334-381 | The packet at the head of the queue is admitted and its payload fits the receive ring |
| `Stream.KeepsA` | stacks/tcpconn.go:115-186 | Every event at one side keeps the sequence numbers, the advertised edges and the conservation of bytes in both directions |
| `Stalls.SilentIffMute` | control.go:100-152 | An established connection with room in the response transmits nothing if and only if it has nothing to send or acknowledge, or has bytes and no room in the peer's window |
| `Stalls.StalledNext` | control.go:118-125 | In a stalled pair no event sends anything, and an event ends the stall if and only if it writes bytes to a side whose peer has room for them |
| `Stalls.StalledUntilWoken` | control.go:118-125 | Until such a write a stalled pair stays stalled over every list of events |
| `Stalls.StallIff` | control.go:100-125 | With nothing in flight, no list of reads, sends and receives ever puts a packet in flight if and only if both sides are mute |
| `Stalls.HelplessIff` | control.go:100-125 | With nothing in flight, no list of writes, reads, sends and receives ever puts a packet in flight if and only if both sides are mute and no write can help either |
| `Stalls.DeadIff` | control.go:100-125 | With nothing in flight, no list of events at all, Close included, ever puts a packet in flight if and only if both sides have bytes to send and no room for them |
| `Stalls.ReachedStallIff` | stacks/tcpconn.go:383-431 | All three of these at every point of every run of a fresh pair at which nothing is in flight |
| `Stalls.FreshMayStall` | stacks/tcpconn.go:383-431 | Every fresh pair that advertised all its receive space, with transmit rings no smaller than the windows, has a run to a stall in which no write helps |
| `Stalls.FreshMayStarve` | stacks/tcpconn.go:165-186 | With traffic in one direction only, every such pair has a run to a stall in which the receiver has read everything and has its whole ring free, and only a write at the receiver would end it |
| `Draining.CloseDrains` | stacks/tcpconn.go:301-316 | Against any peer that sends no SYN or RST, in every run of user calls and arrivals: the payloads sent are a prefix of the bytes written, the rest is buffered while established, and a side that closes first has sent every byte before its FIN |
| `Draining.Frozen` | stacks/tcpconn.go:323-332 | Nothing is written or sent once the state is no longer Established |
| `Draining.PeerCloseStrands` | control.go:106-131 | The bytes that wait when the peer's FIN is accepted are never sent in any continuation |
| `Draining.NothingMoreRead` | stacks/tcpconn.go:323-332 | Once either side has begun to close nothing more is read, and what is buffered stays buffered |
| `Draining.PeerCloseHidesBytes` | stacks/tcpconn.go:165-186 | After the peer's FIN was taken, in every continuation everything accepted has been read if and only if nothing was buffered then and nothing was accepted since |
| `Draining.RunAccounted` | stacks/tcpconn.go:334-381 | In every run with non-empty reads the bytes that went into the ring are those read followed by those buffered |
| `Draining.CountedIff` | control_user.go:211-217 | In every run against any peer, the bytes counted in RCV.NXT are those read followed by those buffered if and only if no segment overran the ring |
| `Draining.OverrunIff` | stacks/tcpconn.go:365-373 | A segment overruns the ring if and only if the block takes it and its payload is longer than the room there is |
| `Draining.WindowPreventsOverrun` | control.go:299-306 | While RCV.WND is no more than the room there is nothing overruns the ring |
| `Draining.StaleWindowOverruns` | stacks/tcpconn.go:365-373 | A segment that the block counts and will acknowledge and the connection throws away |
| `Delayed.FinGoesOutIff` | stacks/tcpconn.go:486-500 | At every point of every run at which the user has closed, the state is Established and nothing is left to send, everything written was sent, and the next send is the FIN if and only if no segment has acknowledged the future since the connection last looked at its state; otherwise the send after it is |
| `Delayed.FinIsNext` | stacks/tcpconn.go:486-500 | Right after the send, the receive or the Close that left nothing to send, the next send is the FIN |
| `Delayed.DelayedCloseEndsInFin` | stacks/tcpconn.go:301-316 | After a Close with bytes waiting nothing more is written, and once everything written has gone out in Established one of the next two segments is the FIN |
| `Delayed.CloseForgottenIff` | control.go:333-335 | A segment undoes a Close of an established block, as if it had not been called, if and only if it is in order and acknowledges what was never sent (and is no old acknowledgment with nothing in it) |
| `Delayed.OneByteThenFin` | stacks/tcpconn.go:486-500 | Close with one byte waiting: the byte goes out, and the FIN in the segment after it |
| `Reports.AbortedIff` | stacks/tcpconn.go:334-364 | A receive ends the connection if and only if it was Closed or in TimeWait, or the segment is a reset at RCV.NXT within the window past the handshake; what it leaves |
| `Reports.KilledIff` | control.go:407-425 | Recv reports an error and leaves a Closed block exactly for such a reset |
| `Reports.ResetEndsConnection` | stacks/tcpconn.go:354-364 | After such a reset, in every run that follows: nothing is written, read, sent or counted, the user is refused, and every segment reports the end again |
| `Reports.EndReportedIff` | stacks/tcpconn.go:334-381 | The end of the connection is reported if and only if it was over, such a reset came, or the delivered segment leaves it finished or giving up |
| `Reports.RecvFlagsIff` | stacks/tcpconn.go:503-506 | Another call is asked for exactly when a segment was delivered and leaves something pending |
| `Reports.SendReportsIff` | stacks/tcpconn.go:383-431 | What every send reports, on the connection it leaves |
| `Reports.PassiveCloseLingers` | stacks/tcpconn.go:486-512 | A connection that closed second and whose FIN is acknowledged is Closed, and this is not reported unless it has been idle or another segment arrives |
| `Reports.CloseConnMeans` | stacks/tcpconn.go:301-316 | When Close succeeds, when the connection closes from then on, and that the user may neither write nor read after it in any case |
| `Reports.WritesAndReads` | stacks/tcpconn.go:115-186 | A write takes all its bytes up to the last free byte of the ring, or none; a read gives what there is and is asked for |
| `Reports.OpenConnIff` | stacks/tcpconn.go:281-299 | When Open succeeds, that nothing changes otherwise, and the numbers, rings and flags of an opened connection |
| `Lossy.ReadsAPrefix` | stacks/tcpconn.go:301-431 | Two connections over a network that drops, duplicates and reorders, users that write, read and close, fewer than 2^31 octets each way: what each user has read followed by its receive ring is a prefix of what the other wrote, no counted payload ever finds the ring full, and no established side panics |
| `Lossy.Fits` | stacks/tcpconn.go:365-373 | No packet that was ever sent overruns the ring, whenever it arrives |
| `Lossy.Step` | stacks/tcpconn.go:334-431 | Every event keeps the accounts of both users and the granted edges |
| `Pair.OpenedNeverRejects` | seqs_test.go:798-891 | From Open, for all initial numbers and windows and every interleaving of emits and deliveries: whatever PendingSegment offers is accepted by the sender's Send and the peer's Recv; once both are established each IRS is the other's ISS, each RCV.NXT plus the octets in flight is the peer's SND.NXT, and in-flight stays within the window |
| `Pair.EstablishedNeverRejects` | seqs_test.go:798-891 | The same from any two blocks in step, and every pure acknowledgment that arrives strictly advances SND.UNA |
| `Pair.PureAckAdvances` | control.go:322-331 | In every run each pure acknowledgment that reaches an established side strictly advances its SND.UNA: the duplicate-ACK drop is never taken |
| `Pair.HandshakeCompletes` | seqs_test.go:32-86 | The six-step handshake ends with both sides established and in step, for all initial numbers and windows |
| `Pair.OpenerTakesSynAck` | control.go:175-201 | The opener accepts the SYN-ACK that acknowledges its SYN and becomes established with an ACK pending |
| `Pair.OpenerAcknowledges` | control.go:100-152 | The final acknowledgment is offered and sent |
| `Pair.ListenerTakesAck` | control.go:203-215 | The final acknowledgment establishes the listener, in step with the opener |
| `Flows.Emit` | control.go:100-152 | What an established block in step offers continues its stream, is accepted by Send and keeps the flow invariant (an ACK is pending only if there is something new to acknowledge) |
| `Flows.EmitRefined` | control_user.go:106-158 | The same for the 32-bit block: idle or sent, never a panic or a refusal |
| `Flows.HeadFits` | control.go:281-312 | The segment at the head of the queue is in order and ends within the edge the receiver advertised |
| `Flows.Deliver` | control_user.go:164-224 | The head of the queue is taken, both directions are kept, and a pure acknowledgment strictly advances what is acknowledged |
| `Flows.DeliverFirst` | control.go:203-215 | Data on the first segment after the handshake is counted once and not lost |
| `Recovery.StaleAckIsScreened` | control.go:288-289 | An acknowledgment of any stale SYN is old or unsent, at every distance from the initial number |
| `Recovery.ListenerMisled` | control.go:157-173 | The listener answers the stale SYN as if it were good, whatever window it carries |
| `Recovery.OpenerResets` | control.go:341-345 | The stale SYN-ACK is dropped and answered by a reset at the acknowledged number |
| `Recovery.ListenerReturns` | control.go:407-425 | The listener believes that reset and listens again under its initial number plus 100 |
| `Recovery.StaleSynRecovery` | seqs_test.go:134-207 | For all initial numbers, all windows (the stale SYN's included) and every stale number but the opener's: the exchange of Figure 8 of RFC 9293 ends with both control blocks established, in step and agreeing on the initial numbers |
| `Recovery.ResendMustPassSend` | control.go:341-345 | An opening block takes the right SYN-ACK if and only if its SND.NXT is past its SYN, which after a stale SYN-ACK takes passing the SYN through Send again |
| `Dialing.WaitingTakes` | stacks/tcpconn.go:334-381 | The right SYN-ACK establishes a waiting connection, any admissible answer that acknowledges another number wedges it, and the rest leaves it waiting |
| `Dialing.WedgedLeavesIff` | stacks/tcpconn.go:334-381 | A wedged connection leaves SynSent if and only if it gets a reset at the number it expects or a SYN without ACK |
| `Dialing.WedgedForever` | stacks/tcpconn.go:383-395 | Over every run in which all answers have ACK and no RST a wedged connection stays wedged and sends nothing but its SYN |
| `Dialing.EstablishedIff` | stacks/tcpconn.go:443-459 | Over every such run a waiting connection is established if and only if the first answer that decides is the right SYN-ACK; otherwise it waits on or is wedged |
| `Dialing.DialedWaits` | stacks/tcpconn.go:281-299 | A connection that was just dialed is waiting |
| `ClosingPair.GracefulClose` | control_user.go:77-158 | From an established pair at rest, in every interleaving of Close calls by both sides in whatever state, sends and deliveries: nothing panics, at most 14 moves have any effect, and at rest after a close both sides are in TimeWait or Closed if and only if no Close was called in CloseWait with no FIN in the second slot; without such a Close nothing is refused |
| `ClosingPair.LateCloseStrands` | control_user.go:82-84 | After such a late Close, which only one side can make, at rest the peer is in FinWait2 and the closer in LastAck or Closed, whatever else happens |
| `ClosingPair.CloseMayBeLate` | control_user.go:82-84 | From every established pair in step there is a run of five moves in which a Close comes too late |
| `ClosingPair.Step` | control_user.go:164-224 | Every move takes the pair from one listed joint stage to another; an orderly stage is left only by a late Close, and refuses nothing |
| `ClosingPair.StepDecreases` | control_user.go:106-158 | Every move that has an effect decreases an explicit measure |
| `ClosingPair.RestMeansClosed` | control.go:217-261 | A pair at rest has not begun to close, or both sides are in TimeWait or Closed, or one closed late and its peer is in FinWait2 |
| `ClosingPair.CloseInCloseWaitStrands` | control_user.go:82-84 | For all blocks: Close in CloseWait sends a FIN without ACK, an ACK without FIN and then nothing, and every peer in FinWait2 refuses both |
| `ClosingPair.TakesOnlyFinAck` | control.go:255-261 | A block in FinWait2 accepts a segment without RST if and only if it passes the window checks and has both FIN and ACK; what it refuses leaves it as it was |
| `Hostile.PrefixSafety` | control.go:299-312 | Whatever the network drops, duplicates or reorders and whatever the users close, while fewer than 2^32 octets are sent each way: each side has accepted a prefix of the octets, and of the bytes, its peer sent |
| `Hostile.RecvInSequence` | control_user.go:164-224 | A settled block takes a segment only at RCV.NXT and then counts all of it; otherwise its numbers stay |
| `Hostile.EmitInSequence` | control_user.go:106-158 | What a settled block sends starts at SND.NXT, which advances by its length, and acknowledges all it has accepted |
| `Acks.EstablishedGoesBackIff` | control.go:322-331 | An established block accepts a segment and moves SND.UNA back if and only if it passes the window checks, acknowledges something old that was sent, and carries data or a FIN or is exactly 2^31 old |
| `Acks.RecvUna` | control_user.go:211-217 | Which segments a settled block accepts in each state, and that SND.UNA is then what they acknowledge |
| `Acks.FinWait1GoesOnIff` | control.go:234-253 | FinWait1 goes to FinWait2 if and only if a segment passes the window checks with ACK and without FIN, whatever it acknowledges |
| `Acks.UnaNeverGoesBack` | control.go:299-331 | Over the bad network, from any start with SND.UNA <= SND.NXT: while a side is established and has sent fewer than 2^31 octets, what it takes to be acknowledged never goes back from one point of a run to a later one, and is never more than its peer has accepted |
| `Acks.GoesBackExactlyAtHalf` | valuesize.go:27-34 | In every world a run reaches before the number space is used up, the packets that take back an established side that stays established are exactly the pure acknowledgments 2^31 old that arrive when everything is acknowledged |
| `Halfway.GoesBackAtHalf` | valuesize.go:27-34 | A run of 65536 rounds from a good start, after which exactly 2^31 octets are sent and acknowledged and the acknowledgment of the start takes the side back to it |
| `Acks.ClosingSideGoesBack` | control.go:234-253 | A run from a good start in which a side in FinWait1 takes an old acknowledgment, moves SND.UNA back and is in FinWait2 with its FIN unacknowledged |
| `Edges.OwnEmission` | control.go:114-125 | Over the bad network an established side never sends beyond the edge it was granted |
| `Edges.OwnArrival` | control_user.go:211-217 | The edge an established side knows of never retreats, whatever arrives in whatever order |
| `Edges.PeerEmission` | control.go:143-149 | Every packet grants the edge of what has been read and the ring holds, which never retreats |
| `Edges.TakenWithinLimit` | control.go:299-312 | Every packet that is taken ends within what the receiver granted |
| `UserCalls.NewBlock` | control.go:34-68 | The zero value is Closed, without numbers, window or anything to send; every Open that may be is possible, and Close finds no connection |
| `Lifecycle.RefusalChangesNothing` | control_user.go:106-224 | Every error from Send, and every error from Recv but drop-segment and net.ErrClosed, leaves the whole block as it was |
| `Lifecycle.StepClimbs` | control.go:203-261 | Once synchronized, every step keeps the state or strictly raises its rank; Closed is kept |
| `Lifecycle.OneWay` | control_user.go:77-224 | Every run of a synchronized or closed block changes state at most four times and never returns to Listen, SynSent or SynRcvd |
| `Lifecycle.AtMostOneFin` | control_user.go:115-145 | After Open, for any incoming segments, Close calls and windows, the segments sent carry at most one FIN |
| `Lifecycle.OfferAccepted` | control.go:353-386 | A segment that PendingSegment(0) offers goes out if and only if the local window fits 16 bits and it is a challenge acknowledgment, a reset, or not SYN with FIN in a window of one octet |
| `Lifecycle.OfferedIsSendable` | control.go:100-152 | After Open of any block that owes no challenge acknowledgment, under arbitrary incoming segments that do not combine SYN and RST, whatever PendingSegment(0) offers is accepted by Send, zero windows included |
| `Lifecycle.SendableIff` | control_user.go:49-71 | After Open of any block, everything offered in such runs is sendable if and only if the block owed no challenge acknowledgment |
| `Lifecycle.ChallengeBreaksSendable` | control.go:100-104 | For all initial numbers, windows and ways to open, a block that owes one has such a run to an offer that Send refuses |
| `Lifecycle.SynRstBreaksSendable` | control.go:407-413 | A run with one segment that combines SYN and RST leads to an offer that Send refuses |
| `UserCalls.OpenIff` | control_user.go:49-71 | Open succeeds if and only if the block is Closed or listens, the new state is Listen or SynSent and the window has 16 bits; which error comes otherwise; the block is unchanged then |
| `UserCalls.OpensChangeNothing` | control_user.go:49-60 | In a run with calls of Open at any time, a block that is neither Closed nor listening without them goes on exactly as without them, and none succeeds |
| `UserCalls.OpenSparesConnection` | control_user.go:49-60 | The same for every synchronized connection until it is Closed |
| `UserCalls.OpenedSends` | control_user.go:61-69 | After a successful Open a dialing block sends a SYN at the given number and nothing after it, no data may join that SYN, and a listening block is idle |
| `UserCalls.ListenerIsSilent` | control_user.go:61-69 | Over every run without arrivals an opened listener sends nothing |
| `UserCalls.CloseIff` | control_user.go:77-102 | Close succeeds in exactly five states, and changes nothing in the others; which errors |
| `UserCalls.CloseBeforeHandshake` | control_user.go:85-86 | After Close in Listen or SynSent, over every run up to the next Open: nothing is sent, nothing is taken, the block stays Closed |
| `UserCalls.CloseSendsFin` | control_user.go:87-90 | After Close in SynRcvd or Established the next segment is the FIN at SND.NXT, whatever the peer's window, and the block is in FinWait1 |
| `UserCalls.CloseInCloseWait` | control_user.go:82-84 | Close in CloseWait sends a bare FIN, then a bare ACK, then nothing |
| `Refusals.IncomingRefusals` | control.go:281-311 | Every reason for which the tests on an arrival refuse it, as an if and only if on distances from RCV.NXT |
| `Refusals.HandlerRefusals` | control_user.go:172-204 | Every reason for which the handler of a state refuses an arrival; only TimeWait panics |
| `Refusals.OutgoingRefusals` | control.go:353-387 | Every reason for which Send refuses a segment, as an if and only if on distances from SND.NXT |
| `Refusals.OfferPanicsIff` | control.go:118-125 | PendingSegment panics if and only if more is in flight than the window has room for and more is waiting than 2^32 less the excess |
| `Refusals.SendsBeyondWindowIff` | control.go:82-125 | An established block sends beyond the peer's window if and only if more is in flight than the window has room for and what it has fits a whole window |
| `Refusals.ShrunkWindowExample` | control.go:82-125 | An acknowledgment that shrinks the window, after which the block sends nine octets beyond it |
| `Refusals.KeepaliveRefusedAnyway` | control_user.go:260-264 | The connection's test for keep-alive segments makes no difference |
| `Refusals.RecvNeverPanics` | stacks/tcpconn.go:334-340 | The connection never lets its block panic on receiving |
| `Refinement.ChecksMeanInOrder` | control.go:293-312 | The window tests and the equality test of an incoming segment hold together if and only if, in positions, it starts at the next octet and fits the window |
| `Refinement.ScreeningAgrees` | control.go:288-289 | The signed 32-bit comparisons of acknowledgments are the order of positions |
| `Refinement.OpeningRefines` | control.go:157-215 | The handlers of Listen, SynSent and SynRcvd do what the ideal block does |
| `Refinement.SynchronizedRefines` | control.go:217-261 | So do the handlers from Established on |
| `Refinement.ResetRefines` | control.go:407-425 | So does the handling of RST |
| `Refinement.RecvRefines` | control_user.go:164-224 | Recv of the 32-bit block takes, drops or refuses exactly what the ideal block does and ends in the same state modulo 2^32 |
| `Refinement.PendingRefines` | control.go:100-152 | While no more than a window is in flight both offer the same segment and the bad-calculation panic is unreachable |
| `Refinement.OutgoingWindow` | control.go:358-383 | The window tests of an outgoing segment are interval membership of its first and last octet |
| `Refinement.ChecksMeanSendable` | control.go:353-386 | All the checks of an outgoing segment together are one condition on positions |
| `Refinement.SendRefines` | control_user.go:106-158 | Send of the 32-bit block accepts the same segments as the ideal block, with the same result modulo 2^32: the same next state, and the same flags pending |
| `Refinement.QueueRefines` | control_user.go:141-147 | The two slots of pending flags move as in the ideal block: what waits behind becomes due once everything in front has gone out, but no second FIN |
| `SeqNum.LessThanIsOrder` | valuesize.go:27-34 | LessThan and LessThanEq are the order of positions less than 2^31 apart, across every wrap |
| `SeqNum.LessThanBothWaysExactlyAtHalf` | valuesize.go:27-29 | Two values are each less than the other if and only if they are 2^31 apart |
| `SeqNum.InWindowIsInterval` | valuesize.go:37-45 | InWindow is interval membership of positions |
| `SeqNum.SizeofIsDistance` | valuesize.go:53-55 | Sizeof is the distance of positions |
| `SeqNum.AddIsShift` | valuesize.go:48-60 | Add and UpdateForward shift a position |
| `Segments.LastIsLastOctet` | seqs.go:26-32 | Last is the position of the last octet of a segment |
| `ControlBlocks.ControlBlock.constructor` | control.go:34-79 | The zero value |
| `ControlBlocks.ControlBlock.Open` | control_user.go:49-71 | The whole new block of an active or passive open, or the error with the block unchanged; `UserCalls.OpenIff`, `UserCalls.OpenSparesConnection` and `UserCalls.OpenedSends` say which calls succeed and what follows |
| `ControlBlocks.ControlBlock.Close` | control_user.go:77-102 | The whole new block in each of the eleven states, or the error with the block unchanged; `UserCalls.CloseIff`, `UserCalls.CloseBeforeHandshake`, `UserCalls.CloseSendsFin` and `UserCalls.CloseInCloseWait` say what follows |
| `ControlBlocks.ControlBlock.SetRecvWindow` | control_user.go:249-251 | Only the receive window changes |
| `ControlBlocks.ControlBlock.PendingSegment` | control.go:100-152 | Offers what the specification offers and changes nothing but the challenge flag |
| `ControlBlocks.ControlBlock.ValidateOutgoing` | control.go:353-386 | The first outgoing check that fails, or none; its meaning is ChecksMeanSendable |
| `ControlBlocks.ControlBlock.AdvanceState` | control_user.go:115-137 | The state after sending, and CloseWait's queued FIN-ACK |
| `ControlBlocks.ControlBlock.AdvancePending` | control_user.go:139-145 | The two-slot queue after sending |
| `ControlBlocks.ControlBlock.Send` | control_user.go:106-158 | The specified new block, or an error and the block unchanged |
| `ControlBlocks.ControlBlock.HandleRst` | control.go:407-425 | The specified new block for a challenge, a return to Listen or an abort |
| `ControlBlocks.ControlBlock.CheckWindow` | control.go:281-312 | The first incoming check that fails, or none; its meaning is ChecksMeanInOrder |
| `ControlBlocks.ControlBlock.ValidateIncoming` | control.go:281-351 | The specified new block and error, resets and drop-segment cases included |
| `ControlBlocks.ControlBlock.ReceiveOpening` | control.go:157-215 | The specified effect of the handlers of Listen, SynSent and SynRcvd |
| `ControlBlocks.ControlBlock.ReceiveSynchronized` | control.go:217-261 | The specified effect of the handlers of Established, FinWait1 and FinWait2 |
| `ControlBlocks.ControlBlock.Recv` | control_user.go:164-224 | The specified new block; every error but drop-segment and net.ErrClosed leaves it unchanged |
| `ControlBlocks.ControlBlock.AcceptSegment` | control_user.go:204-217 | The update every accepted segment makes |
| `Rings.Ring.Write` | stacks/ring.go:17-40 | Appends all of its input or nothing; full if and only if it does not fit |
| `Rings.Ring.Read` | stacks/ring.go:42-66 | Removes the oldest min(length, buffered) bytes in order into the destination and nothing else in it changes; an empty destination empties a full ring |
| `Rings.Ring.Free` | stacks/ring.go:77-91 | Capacity less what is buffered, in every layout |
| `Rings.Ring.Buffered` | stacks/ring.go:68-70 | The number of bytes buffered |
| `Rings.Ring.Reset` | stacks/ring.go:72-75 | Empties the ring |
| `Rings.Ring.OnReadEnd` | stacks/ring.go:100-110 | Restores the invariant of the two offsets |
| `Rings.WriteInMiddle` | stacks/ring.go:22-29 | Writing between end and off appends to the queue |
| `Rings.WriteAround` | stacks/ring.go:30-38 | Writing to the end of the buffer and on from its start appends to the queue |
| `Rings.ReadStraight` | stacks/ring.go:47-54 | Reading ahead of off removes a prefix of the queue, whichever offsets wrap |
| `Rings.ReadWrapped` | stacks/ring.go:55-65 | So does reading that wraps around |
| `Conns.ReadKeepsBytes` | stacks/tcpconn.go:165-186 | What a read returns and what it leaves is what there was if and only if the destination is non-empty or the ring is not full |
| `TcpConns.TCPConn.constructor` | stacks/tcpconn.go:71-77 | A connection with two empty rings and a zero control block |
| `TcpConns.NewTCPConn` | stacks/tcpconn.go:58-69 | Default sizes for zero; it panics if and only if the two sizes together exceed 65535 |
| `TcpConns.TCPConn.Open` | stacks/tcpconn.go:281-299 | Rings emptied, block opened with the receive capacity as window, peer noted, SYN passed through Send; unchanged when refused |
| `TcpConns.TCPConn.Close` | stacks/tcpconn.go:301-316 | Delayed while bytes wait to be sent; the specified result otherwise, errors included; `Reports.CloseConnMeans` and `Delayed.DelayedCloseEndsInFin` say what follows |
| `TcpConns.TCPConn.StateCheckNow` | stacks/tcpconn.go:486-512 | A delayed close goes ahead exactly when everything buffered has been sent (in a FIN: `Delayed.FinGoesOutIff`), and the report to the stack: call again, end of connection (closed, or idle for too long while closing), or nothing (`Reports.EndReportedIff`) |
| `TcpConns.TCPConn.TryWrite` | stacks/tcpconn.go:115-161 | One attempt of Write: refused when closed or closing, else all or nothing is buffered |
| `TcpConns.TCPConn.TryRead` | stacks/tcpconn.go:165-186 | Refused when closed or closing, else the oldest buffered bytes |
| `TcpConns.TCPConn.Send` | stacks/tcpconn.go:383-431 | Nothing before the peer is known; then the segment and payload sent, the whole new connection and the report to the stack, SYN repetition, failures and panics included |
| `TcpConns.TCPConn.Recv` | stacks/tcpconn.go:334-381 | A segment from another port than the peer's is left alone; otherwise the whole new connection and the report to the stack for an admitted, refused or aborting segment (`Reports.AbortedIff` says which segments abort, `Reports.EndReportedIff` which reports are the end); the first SYN tells a listener its peer |
| `Checksum.CRC791.AddUint8` | eth/crc.go:62-69 | One byte is added to the bytes fed, at either parity |
| `Checksum.CRC791.AddUint16` | eth/crc.go:52-59 | Two bytes in network order are added to the bytes fed, at either parity |
| `Checksum.CRC791.AddUint32` | eth/crc.go:46-49 | Four bytes in network order are added |
| `Checksum.CRC791.Write` | eth/crc.go:20-43 | All of the bytes are added, and the exact count that is returned |
| `Checksum.CRC791.Reset` | eth/crc.go:83-84 | Nothing is fed |
| `Checksum.CRC791.Sum16` | eth/crc.go:72-81 | However the bytes were split into calls, the folded 32-bit sum of their words; up to 65537 words the checksum of RFC 1071; the fold terminates |
| `Checksum.NoOverflow` | eth/crc.go:13-17 | 65537 words cannot overflow the 32-bit sum |
| `Checksum.OverflowBreaksChecksum` | eth/crc.go:13-17 | 65538 words can, and then the checksum is wrong |
| `Checksum.ExactUntilOverflow` | eth/crc.go:72-81 | The folded 32-bit sum gives the RFC 1071 checksum if and only if the sum did not overflow |
| `Checksum.OnesSumIsNorm` | eth/crc.go:72-81 | End-around carries at every addition or one fold at the end come to the same |
| `Checksum.WordSumConcat` | eth/crc.go:20-43 | Word sums add up over an even split |
| `Checksum.Rfc1071Examples` | eth/crc.go:7-17 | The example of section 3 of RFC 1071, and a message with an odd last byte |
| `Checksum.SelfVerifies` | eth/headers.go:333-340 | A message sums to zero if and only if its field holds the checksum taken with the field zero, or the other zero in its place |
| `Headers.IpHeaderVerifies` | eth/headers.go:333-340 | Every IPv4 header carrying its own checksum sums to zero on verification |
| `Headers.CalculateIpChecksum` | eth/headers.go:333-340 | The RFC 1071 checksum of the header with a zero checksum field |
| `Headers.EthRoundTrip` | eth/headers.go:209-234 | Decoding an Ethernet header that was put gives it back |
| `Headers.IpRoundTrip` | eth/headers.go:273-301 | Decoding an IPv4 header that was put gives it back, with version 4 |
| `Headers.TcpRoundTrip` | eth/headers.go:429-453 | Decoding a TCP header that was put gives it back |
| `Headers.FlagsRoundTrip` | eth/headers.go:487-489 | The nine flag bits come back |
| `Headers.OffsetAndFlagsIndependent` | eth/headers.go:491-502 | Setting the offset and the flags of the shared field commutes, and each is read back |
| `Headers.DirectIsStandard` | eth/headers.go:510-539 | The direct TCP checksum is that over pseudo-header, header, options and payload if and only if the urgent pointer is 0 or 0xffff |
| `Headers.CalculateTcpChecksum` | eth/headers.go:510-539 | The incremental computation is the RFC 1071 checksum of what it feeds, for up to 65536 bytes of options and payload |
| `Wire.WireTransparency` | stacks/port_tcp.go:162-194 | A segment with its payload, put in a frame with any padding and received by the stack it is addressed to, passes every test and reproduces the identical segment and payload, whatever the packet buffer held before |
| `Wire.FrameArrives` | stacks/portstack.go:199-217 | The same for any option-free headers with right lengths and checksum |
| `Wire.PayloadNeedsNoIpOptions` | stacks/port_tcp.go:145-154 | The handler sees the whole payload if and only if there are no IP options or no payload |
| `Calculating.NetworkVerifies` | stacks/port_tcp.go:162-178 | The IPv4 header of every calculated segment sums to zero |
| `Calculating.TransportVerifies` | stacks/port_tcp.go:180-194 | The addresses, the protocol, the length, the TCP header and the payload of every calculated segment sum to zero |
| `Calculating.NetworkLayout` | stacks/port_tcp.go:162-178 | Byte by byte: the two MAC addresses, type 0x0800, version 4 and five words, length, identification, no fragment, 64 hops, protocol 6, the two IP addresses |
| `Calculating.TransportLayout` | stacks/port_tcp.go:180-194 | Byte by byte: ports, sequence and acknowledgment numbers, five words and the flags, window, no urgent pointer |
| `Calculating.FlagBits` | seqs.go:88-106 | The bit of each of the nine flags |
| `Admission.HandledIff` | stacks/portstack.go:163-339 | Of all frames, exactly those reach a handler that are for this stack's MAC or broadcast and for its address, hold a whole TCP segment for an open port, and sum to zero with the checksum in place (the urgent pointer left out, a field of 0xffff refused); and which are refused for their checksum |
| `Admission.DamagedIsRefused` | stacks/portstack.go:302-306 | A frame that a handler would get, with any one byte of its options or payload changed, is refused for its checksum |
| `Admission.RefusedIff` | stacks/portstack.go:163-300 | Every other reason for a refusal, with exactly the frames it is given for |
| `Admission.IgnoredIff` | stacks/portstack.go:163-310 | Exactly the frames that are left alone and those that are for ARP or UDP |
| `Admission.HandlerGets` | stacks/portstack.go:311-330 | The handler finds IP options, TCP options and payload in a row, as far as they fit, and the old contents of the buffer behind them |
| `Admission.HandlerGetsHeaders` | stacks/portstack.go:283-300 | The headers the handler finds are those of the frame |
| `Packets.TCPPacket.CalculateHeaders` | stacks/port_tcp.go:162-194 | The specified headers, both checksums included; `Calculating.NetworkVerifies`, `Calculating.TransportVerifies`, `Calculating.NetworkLayout` and `Calculating.TransportLayout` say what they are byte by byte |
| `Packets.TCPPacket.PutHeaders` | stacks/port_tcp.go:95-106 | The first 54 bytes are the headers and the rest of the buffer stays |
| `Packets.PortStack.RecvEth` | stacks/portstack.go:163-217 | Ignores, refuses, passes to its ARP or UDP part or handles a frame as specified, and leaves what a TCP handler gets in the packet buffer; `Admission.HandledIff`, `Admission.RefusedIff` and `Admission.IgnoredIff` say which frames, byte by byte |
| `Packets.PortStack.Admit` | stacks/portstack.go:283-339 | The TCP branch: ports, offset, checksum, and copying of options and payload; `Admission.HandledIff` and `Admission.HandlerGets` say which and what |
| `DnsMessages.MessageRoundTrip` | eth/dns/types.go:112-167 | Printing any fitting message of well-formed names and parsing it with any capacities gives each section's prefix, consumes exactly what was printed, and is incomplete if and only if some section was cut |
| `DnsMessages.SkipAgrees` | eth/dns/types.go:192-215 | Whatever decodes is skipped to the same offset, and a resource decodes if and only if it can be skipped and ends inside the message without wrap-around |
| `DnsMessages.SkipGoesBack` | eth/dns/types.go:203-215 | A message of 23 bytes whose resource skipping accepts, going back to offset 7, and decoding refuses |
| `DnsPanics.DecodePanicsIff` | eth/dns/types.go:112-167 | Parsing a message of at most 65472 bytes panics if and only if it comes to skip, for want of room, a resource with fewer than ten bytes behind its name |
| `DnsPanics.RecordPanics` | eth/dns/types.go:192-215 | Decoding a record and skipping a question never panic; skipping a resource panics if and only if it is truncated |
| `DnsPanics.RoomMeansNoPanic` | eth/dns/types.go:112-167 | With room for all announced records nothing panics |
| `DnsPanics.TruncatedAnswerPanics` | eth/dns/types.go:203-215 | Every message with a single truncated answer panics without room for answers and is an error with room for one |
| `DnsPanics.ShortIsTruncated` | eth/dns/types.go:203-215 | There is such a message of 13 bytes |
| `DnsMessages.SectionAt` | eth/dns/types.go:169-190 | A printed section decodes to its prefix, and the next one is found whatever the capacity |
| `DnsMessages.QuestionAt` | eth/dns/types.go:341-362 | A printed question decodes to itself and is skipped to the same offset |
| `DnsMessages.ResourceAt` | eth/dns/types.go:369-416 | So does a printed resource |
| `DnsMessages.HeaderAt` | eth/dns/dns.go:69-88 | A printed header decodes to itself |
| `DnsMessages.Layout` | eth/dns/types.go:221-255 | Where the header and the four sections lie in what is printed |
| `DnsCodec.DecodeToCap` | eth/dns/types.go:169-190 | The decoding and skipping loops compute the section as specified, every error and panic included |
| `DnsCodec.DecodeMessage` | eth/dns/types.go:112-167 | The parser computes the specified message, offset, incomplete flag, error or panic |
| `DnsCodec.AppendSection` | eth/dns/types.go:230-253 | Appends the records in order; stops if and only if one has no name |
| `DnsCodec.AppendMessage` | eth/dns/types.go:221-255 | The printer gives the specified bytes, or fails if and only if some record has no name |
| `DnsCodec.MessageLen` | eth/dns/types.go:257-275 | Len is the length of what is printed, in 16 bits |
| `DnsBuffers.PrintsIff` | eth/dns/types.go:221-275 | Printing never panics, whatever the buffer and the allocator, if and only if what is appended (up to the first record without a name), less the data of its last record, is no longer than the 16-bit length of the whole message |
| `DnsBuffers.PrintInto` | eth/dns/types.go:221-255 | Printing into a given buffer with a given allocator: panics exactly when the capacity does not do, fails exactly when a record has no name, and otherwise gives the specified bytes |
| `DnsBuffers.HeavyPanics` | eth/dns/types.go:226-229 | A named message of 80034 bytes that panics with some buffer and allocator |
| `DnsBuffers.AllAppendedIff` | eth/dns/types.go:460-465 | Every record is appended if and only if every record has a name |
| `DnsBuffers.FittingPrints` | eth/dns/types.go:534-542 | A message of at most 65535 bytes is printed without a panic into any buffer |
| `DnsNames.VisitLoop` | eth/dns/dns.go:139-204 | The loop terminates under (pointers left, bytes left), stays in bounds, and hands over the labels of the recursive walk; `DnsChains.DecodesIff`, `DnsChains.ChainDecodes` and `DnsLayout.RefusedIff` say what that gives |
| `DnsNames.WalkSound` | eth/dns/dns.go:139-204 | A successful walk hands over well-formed labels only and ends just past the name in place, inside the message |
| `DnsNames.WalkEncoded` | eth/dns/dns.go:139-204 | Walking an encoded name anywhere in a message gives its labels and the offset just past it |
| `DnsNames.ReencodedNameDecodes` | eth/dns/types.go:483-492 | A decoded name, compressed or not, put into any other message decodes to itself |
| `DnsNames.ShortNeverPanics` | eth/dns/dns.go:164-170 | In messages of at most 65472 bytes the walk never panics |
| `DnsNames.LongMayPanic` | eth/dns/dns.go:164-170 | In every longer one whose last byte is 63 it does |
| `DnsNames.NewNameString` | eth/dns/types.go:427-480 | For every accepted domain but the root, String is the domain with exactly one trailing dot; `DnsDomains.NewNameIff` says which are accepted and `DnsDomains.NewNameRenders` what their bytes are |
| `DnsNames.NewNameDecodes` | eth/dns/types.go:427-492 | A name that NewName makes decodes to itself wherever it is put |
| `DnsNames.AddLabelHolds` | eth/dns/types.go:498-515 | Adding a label appends it to the labels a name encodes, within 255 bytes |
| `DnsNames.RootString` | eth/dns/types.go:427-480 | The root is a lone terminator with an empty String |
| `DnsChains.DecodesIff` | eth/dns/dns.go:139-204 | A name decodes if and only if a chain of labels in place joined by at most ten pointers starts there |
| `DnsChains.ChainDecodes` | eth/dns/dns.go:176-194 | A chain with at most ten pointers decodes to the labels along it and ends just past what is in place; with more it is refused |
| `DnsChains.PointerDecodes` | eth/dns/dns.go:176-194 | Labels and a pointer to an encoded name decode to the labels followed by that name, ending just past the two bytes |
| `DnsChains.PointerExample` | eth/dns/dns.go:176-194 | Twelve bytes of header, the name a and a pointer to it: decoded at the pointer it is the name a, ending at 17 |
| `DnsChains.UncompressedIff` | eth/dns/dns.go:139-204 | Without compression a name is walked over if and only if it lies there in one piece |
| `DnsLayout.RefusedIff` | eth/dns/dns.go:153-198 | A name is refused with an error if and only if a chain of at most ten pointers leads to what the error says, or has an eleventh pointer |
| `DnsLayout.CompressedIff` | eth/dns/dns.go:179-181 | Without compression exactly labels that end in a pointer are refused for it |
| `DnsDomains.NewNameIff` | eth/dns/types.go:427-448 | NewName succeeds if and only if the domain is the root, empty, or (with one dot at its end) of at most 253 bytes with 1 to 63 bytes between dots, the last of them not zero |
| `DnsDomains.NewNameRenders` | eth/dns/types.go:505-515 | The bytes of the name are those of the dotted domain, with the length of each stretch before it and a zero at the end |
| `DnsDomains.DomainExamples` | eth/dns/types.go:427-448 | A name that is made, byte by byte, and two domains of which none can be |
| `DnsLayout.MessageLayout` | eth/dns/types.go:221-255 | Byte by byte, the header of what is printed, and the sections in order behind it |
| `DnsLayout.QuestionLayout` | eth/dns/types.go:354-362 | Byte by byte, a printed question |
| `DnsLayout.ResourceLayout` | eth/dns/types.go:381-416 | Byte by byte, a printed resource |
| `DnsLayout.QuestionDecodesIff` | eth/dns/types.go:341-352 | A question decodes if and only if its name does and four bytes follow; its fields are at those bytes |
| `DnsLayout.ResourceDecodesIff` | eth/dns/types.go:369-404 | A resource decodes if and only if its name does, ten bytes follow, and as much data as they say; its fields are at those bytes |
| `DnsLayout.DecodedCounts` | eth/dns/types.go:112-190 | Whatever decodes holds as many records as the header says and there is room for, and is incomplete exactly when some were left out |
| `DnsLayout.SkipsByLength` | eth/dns/types.go:192-215 | What skipping a record comes to, on the bytes behind its name |
| `DnsLayout.BrokenString` | eth/dns/types.go:468-480 | String of bytes that are no name gives the labels before what is wrong |
| `DnsLayout.WrongSize` | eth/dns/types.go:112-120 | Messages of fewer than 12 or more than 65535 bytes are refused as such |
| `Ntp.AddThenSub` | eth/ntp/ntp.go:229-249 | Without wrap of the seconds, adding a duration and taking the difference gives it back exactly when the fraction carries or is exact, and one nanosecond less otherwise |
| `Ntp.NegativeAddThenSub` | eth/ntp/ntp.go:243-249 | Adding a negative duration and taking the difference gives it back if and only if it is a whole number of seconds; otherwise the difference is too large |
| `Ntp.SubAntisymmetric` | eth/ntp/ntp.go:229-241 | Sub changes sign when its arguments are exchanged, and exactly when it is zero |
| `Ntp.TimeRoundTrip` | eth/ntp/ntp.go:191-227 | A time becomes a timestamp if and only if it lies in the era, and comes back exact or one nanosecond less, exactly when the fraction is not exact |
| `Ntp.NanosOfFraction` | eth/ntp/ntp.go:201-236 | To a fraction and back one nanosecond is lost exactly when the fraction is not exact |
| `Ntp.NanosOfBorrow` | eth/ntp/ntp.go:229-249 | Counted down from the next second the fraction comes back to the nanosecond |
| `Ntp.NoOverflow` | eth/ntp/ntp.go:191-249 | No intermediate result overflows 64 bits |
| `Ntp.TimeOfTimestamp` | eth/ntp/ntp.go:224-227 | The time of a timestamp: whole seconds and the fraction rounded down |
| `Ntp.SubIsDifference` | eth/ntp/ntp.go:229-241 | Sub is the difference of the times up to one nanosecond |
| `Ntp.AddIsLater` | eth/ntp/ntp.go:243-249 | Adding a duration makes the time later by that much, at most two nanoseconds early and one late |

## Left out

- Simultaneous open and a SYN after synchronization in the two-party results: SYN segments bypass the sequence check and count the SYN twice. `Lifecycle` and `Refinement` do cover them for one block, and `Dialing` the way out of SynSent that they are.
- Handshake.OpenedEndToEnd: the SYN is sent once; a repeated SYN is not part of these runs.
- Timers, deadlines, backoff, the idle abort and the SYN retransmission clock: `TCPConn.Send` takes whether the SYN is due as a parameter, and Write and Read are single enabled attempts.
- Concurrency within one process: user calls and packet handling are atomic steps, in any order.
- `connid` and `abortErr`: which of several connections of a socket a user call belongs to.
- DnsCodec.AppendMessage: states the bytes, and leaves the capacity of the buffer, which can make it panic above 65535 bytes, to DnsBuffers.PrintInto.
- MSS and other options of outgoing TCP and IPv4 headers (`PutHeadersWithOptions`), ParseTCPPacket, UDP, ARP, DHCP, HTTP and the DNS and NTP clients: short linear machines.
- Admission.RefusedIff: the ARP part has a test of its own on the length of a frame; all ARP frames count as handed to that part.
- The port table, the listener's pool and `HandleEth`'s dispatch: the receiving stack has a set of open ports instead.
- Logging, tracing, stringers and counters: no behaviour.
- `prand16`, `DefaultNewISS` and `SystemPrecision`: their results are parameters or arbitrary values.
- The partly filled message and name that a failed DNS decode leaves behind, and section capacities of 65536 and more.
- Ntp.AddThenSub: durations that are not negative; NegativeAddThenSub states the others. `Date` is not modelled.
- Headers.CalculateTcpChecksum: says nothing beyond 65536 bytes of options and payload, which no IPv4 packet can carry.
- TcpConns.TCPConn.constructor: the two rings have arrays of their own, where the code slices one array; NewTCPConn states the sizes and the panic.
- The payload length check of `recv` (stacks/tcpconn.go:366-368): a segment made from its payload always passes it.
- `int` is taken to be wide enough for every length, as it is on a 64-bit machine.
