/** TCP segments in sequence space, flag sets and connection states (seqs.go). */
module Segments {
  import opened SeqNum

  /** The nine defined TCP flag bits. */
  datatype Flags = Flags(fin: bool, syn: bool, rst: bool, psh: bool, ack: bool,
                         urg: bool, ece: bool, cwr: bool, ns: bool)
  {
    function Or(f: Flags): Flags {
      Flags(fin || f.fin, syn || f.syn, rst || f.rst, psh || f.psh, ack || f.ack,
            urg || f.urg, ece || f.ece, cwr || f.cwr, ns || f.ns)
    }

    function And(f: Flags): Flags {
      Flags(fin && f.fin, syn && f.syn, rst && f.rst, psh && f.psh, ack && f.ack,
            urg && f.urg, ece && f.ece, cwr && f.cwr, ns && f.ns)
    }

    function Without(f: Flags): Flags {
      Flags(fin && !f.fin, syn && !f.syn, rst && !f.rst, psh && !f.psh, ack && !f.ack,
            urg && !f.urg, ece && !f.ece, cwr && !f.cwr, ns && !f.ns)
    }

    predicate HasAll(mask: Flags) {
      && (mask.fin ==> fin) && (mask.syn ==> syn) && (mask.rst ==> rst) && (mask.psh ==> psh) && (mask.ack ==> ack)
      && (mask.urg ==> urg) && (mask.ece ==> ece) && (mask.cwr ==> cwr) && (mask.ns ==> ns)
    }

    predicate HasAny(mask: Flags) {
      || (fin && mask.fin) || (syn && mask.syn) || (rst && mask.rst) || (psh && mask.psh) || (ack && mask.ack)
      || (urg && mask.urg) || (ece && mask.ece) || (cwr && mask.cwr) || (ns && mask.ns)
    }
  }

  const NO_FLAGS: Flags := Flags(false, false, false, false, false, false, false, false, false)
  const FIN: Flags := NO_FLAGS.(fin := true)
  const SYN: Flags := NO_FLAGS.(syn := true)
  const RST: Flags := NO_FLAGS.(rst := true)
  const ACK: Flags := NO_FLAGS.(ack := true)
  const SYNACK: Flags := SYN.(ack := true)
  const FINACK: Flags := FIN.(ack := true)

  /** Sending every pending flag leaves none. */
  lemma WithoutAll(f: Flags, sent: Flags)
    requires sent.HasAll(f)
    ensures f.Without(sent) == NO_FLAGS
  {
  }

  /** Testing for a single flag. */
  lemma HasFin(f: Flags)
    ensures f.HasAny(FIN) == f.fin
  {
  }

  lemma HasAck(f: Flags)
    ensures f.HasAny(ACK) == f.ack
  {
  }

  lemma OrNothing(f: Flags)
    ensures f.Or(NO_FLAGS) == f && NO_FLAGS.Or(f) == f
  {
  }

  datatype State =
    | Closed
    | Listen
    | SynRcvd
    | SynSent
    | Established
    | FinWait1
    | FinWait2
    | Closing
    | TimeWait
    | CloseWait
    | LastAck
  {
    predicate IsPreestablished() {
      SynRcvd? || SynSent? || Listen?
    }

    predicate IsClosed() {
      Closed? || TimeWait?
    }

    /** Has gone through Established. */
    predicate IsSynchronized() {
      !Closed? && !IsPreestablished()
    }

    predicate IsClosing() {
      IsSynchronized() && !Established?
    }
  }

  datatype Segment = Segment(seqno: Value, ackno: Value, dataLen: Size, wnd: Size, flags: Flags)
  {
    /** Octets of sequence space: the data plus one for each of FIN and SYN. */
    function Len(): Size {
      Add(dataLen, (if flags.fin then 1 else 0) + (if flags.syn then 1 else 0))
    }

    /** The sequence number of the last octet (the first one, for an empty segment). */
    function Last(): Value {
      if Len() == 0 then seqno else Sub(Add(seqno, Len()), 1)
    }
  }

  /** The last octet of a segment placed at position p is at position p + Len - 1. */
  lemma LastIsLastOctet(s: Segment, p: int)
    requires s.seqno == Wrap(p) && s.Len() > 0
    ensures s.Last() == Wrap(p + s.Len() - 1)
  {
    AddIsShift(p, s.Len());
    WrapOfValue(1);
    SubIsDistance(p + s.Len(), 1);
  }

  /** Every way an operation of the control block ends, the panics included. */
  datatype Err =
    | NoError
    | DropSegment
    | NetClosed
    | ClosedPipe
    | WindowOverflow
    | WindowTooLarge
    | SeqNotInWindow
    | ZeroWindow
    | LastNotInWindow
    | RequireSequential
    | AckNotNext
    | TcbNotClosed
    | InvalidState
    | ConnNotExist
    | ConnectionClosing
    | ExpectedSyn
    | BadSegAck
    | FinWaitExpectedAck
    | FinWaitExpectedFinAck
    | PanicUnexpectedState
}
