/** A run that takes SND.UNA back by half the number space: the bound of Acks.UnaNeverGoesBack is sharp. */
module Halfway {
  import opened SeqNum
  import opened Segments
  import opened Control
  import opened Rings
  import opened Hostile
  import opened Acks

  /** The bytes sent in one round, and the number of rounds that come to half the number space. */
  const CHUNK: int := 32768
  const ROUNDS: int := 65536

  function Zeros(n: nat): (z: seq<byte>)
    ensures |z| == n
  {
    if n == 0 then [] else [0] + Zeros(n - 1)
  }

  /** The sending side with everything up to una acknowledged. */
  function Sender(una: Value, nxt: Value): Block {
    Block(SendSpace(0, una, nxt, 65535), RecvSpace(0, 0, 65535), 0, NO_FLAGS, NO_FLAGS, Established, false)
  }

  function Receiver(nxt: Value, pending: Flags): Block {
    Block(SendSpace(0, 0, 0, 65535), RecvSpace(0, nxt, 65535), 0, pending, NO_FLAGS, Established, false)
  }

  function Bulk(n: Value): Segment {
    Segment(n, 0, CHUNK, 65535, ACK)
  }

  function Acknowledgment(n: Value): Segment {
    Segment(0, n, 0, 65535, ACK)
  }

  // ---------------------------------------------------------------------------------------------
  // The blocks

  lemma {:induction false} BulkSent(n: Value)
    requires n + CHUNK < MODULUS
    ensures EmitPending(Sender(n, n), CHUNK) == Control.Sent(Sender(n, n + CHUNK), Bulk(n))
  {
    OrNothing(ACK);
    WithoutAll(NO_FLAGS, ACK);
    WithoutAll(NO_FLAGS, ACK.And(FIN));
    assert PendingSegment(Sender(n, n), CHUNK) == (Sender(n, n), Offered(Bulk(n)));
    assert CheckOutgoing(Sender(n, n), Bulk(n)) == NoError;
  }

  lemma {:induction false} BulkTaken(n: Value)
    requires n + CHUNK < MODULUS
    ensures Recv(Receiver(n, NO_FLAGS), Bulk(n)) == Result(Receiver(n + CHUNK, ACK), NoError)
  {
    OrNothing(ACK);
  }

  lemma {:induction false} AckSent(n: Value)
    ensures EmitPending(Receiver(n, ACK), 0) == Control.Sent(Receiver(n, NO_FLAGS), Acknowledgment(n))
  {
    assert ACK.Or(ACK) == ACK;
    WithoutAll(ACK, ACK);
    WithoutAll(NO_FLAGS, ACK.And(FIN));
    OrNothing(NO_FLAGS);
    assert PendingSegment(Receiver(n, ACK), 0) == (Receiver(n, ACK), Offered(Acknowledgment(n)));
    assert CheckOutgoing(Receiver(n, ACK), Acknowledgment(n)) == NoError;
  }

  lemma {:induction false} AckTaken(n: Value)
    requires n + CHUNK < MODULUS
    ensures Recv(Sender(n, n + CHUNK), Acknowledgment(n + CHUNK)) == Result(Sender(n + CHUNK, n + CHUNK), NoError)
  {
    OrNothing(NO_FLAGS);
  }

  // ---------------------------------------------------------------------------------------------
  // One round

  /** After r rounds; the acknowledgment that B owed at the start is still in the network. */
  predicate After(w: World, r: nat) {
    && r * CHUNK < MODULUS
    && w.a.block == Sender(r * CHUNK, r * CHUNK) && w.b.block == Receiver(r * CHUNK, NO_FLAGS)
    && |w.a.sent| == r * CHUNK && w.b.sent == []
    && |w.fromA| == r && |w.fromB| == r + 1 && w.fromB[0].seg == Acknowledgment(0)
  }

  /** The network after the bulk has been sent. */
  lemma {:induction false} SendStep(w: World, n: Value) returns (w': World)
    requires w.a.block == Sender(n, n) && n + CHUNK < MODULUS
    ensures Next(w, Emit(SideA, Zeros(CHUNK))) == w'
    ensures w'.a.block == Sender(n, n + CHUNK) && |w'.a.sent| == |w.a.sent| + CHUNK
    ensures w'.b == w.b && w'.fromB == w.fromB
    ensures |w'.fromA| == |w.fromA| + 1 && w'.fromA[|w.fromA|].seg == Bulk(n)
  {
    BulkSent(n);
    w' := AfterEmit(w, Zeros(CHUNK), Control.Sent(Sender(n, n + CHUNK), Bulk(n)));
  }

  lemma {:induction false} TakeStep(w: World, n: Value, i: nat) returns (w': World)
    requires w.b.block == Receiver(n, NO_FLAGS) && n + CHUNK < MODULUS && i < |w.fromA| && w.fromA[i].seg == Bulk(n)
    ensures Next(w, Arrive(SideB, i)) == w'
    ensures w'.b.block == Receiver(n + CHUNK, ACK) && w'.b.sent == w.b.sent && w'.a == w.a
    ensures w'.fromA == w.fromA && w'.fromB == w.fromB
  {
    BulkTaken(n);
    w' := Swap(AfterArrival(Swap(w), w.fromA[i], Result(Receiver(n + CHUNK, ACK), NoError)));
  }

  lemma {:induction false} AckStep(w: World, n: Value) returns (w': World)
    requires w.b.block == Receiver(n, ACK)
    ensures Next(w, Emit(SideB, [])) == w'
    ensures w'.b.block == Receiver(n, NO_FLAGS) && w'.b.sent == w.b.sent && w'.a == w.a && w'.fromA == w.fromA
    ensures |w'.fromB| == |w.fromB| + 1 && w'.fromB[|w.fromB|].seg == Acknowledgment(n)
    ensures forall i :: 0 <= i < |w.fromB| ==> w'.fromB[i] == w.fromB[i]
  {
    AckSent(n);
    w' := Swap(AfterEmit(Swap(w), [], Control.Sent(Receiver(n, NO_FLAGS), Acknowledgment(n))));
    assert Octets([][..0], false) == [];
    assert w.b.sent + [] == w.b.sent;
  }

  lemma {:induction false} AckedStep(w: World, n: Value, i: nat) returns (w': World)
    requires n + CHUNK < MODULUS && w.a.block == Sender(n, n + CHUNK)
    requires i < |w.fromB| && w.fromB[i].seg == Acknowledgment(n + CHUNK)
    ensures Next(w, Arrive(SideA, i)) == w'
    ensures w'.a.block == Sender(n + CHUNK, n + CHUNK) && w'.a.sent == w.a.sent && w'.b == w.b
    ensures w'.fromA == w.fromA && w'.fromB == w.fromB
  {
    AckTaken(n);
    w' := AfterArrival(w, w.fromB[i], Result(Sender(n + CHUNK, n + CHUNK), NoError));
  }

  function RoundEvents(r: nat): seq<Event> {
    [Emit(SideA, Zeros(CHUNK)), Arrive(SideB, r), Emit(SideB, []), Arrive(SideA, r + 1)]
  }

  lemma {:induction false} Round(w: World, r: nat) returns (w1: World, w2: World, w3: World, w4: World)
    requires After(w, r) && (r + 1) * CHUNK < MODULUS - 1
    ensures After(w4, r + 1)
    ensures Allowed(w, RoundEvents(r)[0]) && Next(w, RoundEvents(r)[0]) == w1
    ensures Allowed(w1, RoundEvents(r)[1]) && Next(w1, RoundEvents(r)[1]) == w2
    ensures Allowed(w2, RoundEvents(r)[2]) && Next(w2, RoundEvents(r)[2]) == w3
    ensures Allowed(w3, RoundEvents(r)[3]) && Next(w3, RoundEvents(r)[3]) == w4
  {
    var n := r * CHUNK;
    w1 := SendStep(w, n);
    w2 := TakeStep(w1, n, r);
    w3 := AckStep(w2, n + CHUNK);
    w4 := AckedStep(w3, n, r + 1);
  }

  // ---------------------------------------------------------------------------------------------
  // The run

  /** Two established sides in step, of which B owes an acknowledgment. */
  const OWING: World := World(Peer(Sender(0, 0), [], []), Peer(Receiver(0, ACK), [], []), [], [])

  lemma {:induction false} RunsTwo(w: World, events: seq<Event>, w0: World, d: Event, w1: World, e: Event, w2: World)
    requires Runs(w, events, w0) && Allowed(w0, d) && Next(w0, d) == w1 && Allowed(w1, e) && Next(w1, e) == w2
    ensures Runs(w, events + [d, e], w2)
  {
    RunsSnoc(w, events, w0, d, w1);
    RunsSnoc(w, events + [d], w1, e, w2);
    assert events + [d] + [e] == events + [d, e];
  }

  lemma {:induction false} Rounds(r: nat) returns (events: seq<Event>, w: World)
    requires r * CHUNK < MODULUS - 1
    ensures Runs(OWING, events, w) && After(w, r)
  {
    if r == 0 {
      w := AckStep(OWING, 0);
      events := [Emit(SideB, [])];
      assert Runs(OWING, [], OWING);
      RunsSnoc(OWING, [], OWING, Emit(SideB, []), w);
      assert [] + [Emit(SideB, [])] == events;
    } else {
      var before, w0 := Rounds(r - 1);
      var w1, w2, w3, w4 := Round(w0, r - 1);
      var es := RoundEvents(r - 1);
      RunsTwo(OWING, before, w0, es[0], w1, es[1], w2);
      RunsTwo(OWING, before + [es[0], es[1]], w2, es[2], w3, es[3], w4);
      events, w := before + [es[0], es[1]] + [es[2], es[3]], w4;
    }
  }

  /** After exactly 2^31 octets, all acknowledged, the acknowledgment of the very start arrives and takes the side
      back to where it began. */
  lemma {:induction false} GoesBackAtHalf() returns (events: seq<Event>, w: World)
    ensures Start(OWING) && Runs(OWING, events, w) && |w.a.sent| == HALF && |w.fromB| > 0
    ensures w.a.block.state.Established? && HalfOld(w.a.block, w.fromB[0].seg)
    ensures NextA(w, Arrive(SideA, 0)).a.block.state.Established?
    ensures Acked(w.a) == HALF && Acked(NextA(w, Arrive(SideA, 0)).a) == 0
  {
    events, w := Rounds(ROUNDS);
    OldAckTaken();
  }

  lemma {:induction false} OldAckTaken()
    ensures Recv(Sender(HALF, HALF), Acknowledgment(0)) == Result(Sender(0, HALF), NoError)
  {
    OrNothing(NO_FLAGS);
  }
}
