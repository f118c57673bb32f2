/** Compressed DNS names as they lie in a message (section 4.1.4 of RFC 1035): runs of labels joined by pointers. A name
    decodes exactly when it is such a chain with at most ten pointers, and to the labels along it. */
module DnsChains {
  import opened Rings
  import opened Checksum
  import opened DnsNames

  /** Labels in place at an offset of a message. */
  datatype Piece = Piece(off: nat, labels: seq<seq<byte>>)

  predicate Holds(msg: seq<byte>, off: nat, b: seq<byte>) {
    off + |b| <= |msg| && msg[off..off + |b|] == b
  }

  /** The two bytes of a pointer to k: fourteen bits, the high six of them behind two ones. */
  function PointerBytes(k: nat): seq<byte>
    requires k < 0x4000
  {
    [192 + k / 256, k % 256]
  }

  /** Each piece but the last is followed by a pointer to the next, and the last by a zero byte. */
  predicate Chain(msg: seq<byte>, ps: seq<Piece>) {
    && ps != [] && GoodLabels(ps[0].labels)
    && (if |ps| == 1 then Holds(msg, ps[0].off, Body(ps[0].labels) + [0])
        else && ps[1].off < 0x4000 && Holds(msg, ps[0].off, Body(ps[0].labels) + PointerBytes(ps[1].off))
             && Chain(msg, ps[1..]))
  }

  /** The labels along a chain. */
  function Spelled(ps: seq<Piece>): seq<seq<byte>> {
    if ps == [] then [] else ps[0].labels + Spelled(ps[1..])
  }

  /** Just past the first piece and what follows it. */
  function EndInPlace(ps: seq<Piece>): nat
    requires ps != [] && GoodLabels(ps[0].labels)
  {
    ps[0].off + |Body(ps[0].labels)| + (if |ps| == 1 then 1 else 2)
  }

  // ---------------------------------------------------------------------------------------------
  // Chains are walked

  lemma {:induction false} HoldsBoth(msg: seq<byte>, off: nat, a: seq<byte>, b: seq<byte>)
    ensures Holds(msg, off, a + b) <==> Holds(msg, off, a) && Holds(msg, off + |a|, b)
  {
    if off + |a| + |b| <= |msg| {
      var s := msg[off..off + |a| + |b|];
      assert s == msg[off..off + |a|] + msg[off + |a|..off + |a| + |b|];
      assert s[..|a|] == msg[off..off + |a|] && (a + b)[..|a|] == a;
      assert s[|a|..] == msg[off + |a|..off + |a| + |b|] && (a + b)[|a|..] == b;
    }
  }

  /** One label in place is one step of the walk. */
  lemma {:induction false} StepOverLabel(msg: seq<byte>, cur: nat, l: seq<byte>, ptr: nat, newOff: u16, allow: bool)
    requires |msg| <= 0xffff && ptr <= MAX_POINTERS && GoodLabel(l) && Holds(msg, cur, [|l|] + l)
    requires cur + 1 + |l| <= 0xffff
    ensures Walk(msg, cur, ptr, newOff, allow) == Walk(msg, cur + 1 + |l|, ptr, newOff, allow).Prepend(l)
  {
    HoldsBoth(msg, cur, [|l|], l);
    assert msg[cur] == msg[cur..cur + 1][0];
  }

  /** Labels in place are walked over. */
  lemma {:induction false} StepOverBody(msg: seq<byte>, cur: nat, ls: seq<seq<byte>>, ptr: nat, newOff: u16,
                                        allow: bool)
    requires |msg| <= 0xffff && ptr <= MAX_POINTERS && GoodLabels(ls) && Holds(msg, cur, Body(ls))
    ensures Walk(msg, cur, ptr, newOff, allow) == After(ls, Walk(msg, cur + |Body(ls)|, ptr, newOff, allow))
    decreases |ls|
  {
    var r := Walk(msg, cur + |Body(ls)|, ptr, newOff, allow);
    if ls == [] {
      AfterNothing(r);
    } else {
      var l := ls[0];
      assert Body(ls) == ([|l|] + l) + Body(ls[1..]);
      HoldsBoth(msg, cur, [|l|] + l, Body(ls[1..]));
      StepOverLabel(msg, cur, l, ptr, newOff, allow);
      StepOverBody(msg, cur + 1 + |l|, ls[1..], ptr, newOff, allow);
      AfterFirst(ls, r);
    }
  }

  lemma AfterNothing(r: Walked)
    ensures After([], r) == r
  {
    match r {
      case Done(ls, end) => assert [] + ls == ls;
      case Stopped(ls, err) => assert [] + ls == ls;
      case Panicked =>
    }
  }

  lemma AfterFirst(ls: seq<seq<byte>>, r: Walked)
    requires ls != []
    ensures After(ls[1..], r).Prepend(ls[0]) == After(ls, r)
  {
    match r {
      case Done(ms, end) => assert [ls[0]] + (ls[1..] + ms) == ls + ms;
      case Stopped(ms, err) => assert [ls[0]] + (ls[1..] + ms) == ls + ms;
      case Panicked =>
    }
  }

  /** The walk from a pointer to k that ends at an offset. */
  function FromPointer(msg: seq<byte>, end: nat, k: nat, ptr: nat, newOff: u16): Walked
    requires end <= |msg| <= 0xffff && ptr <= MAX_POINTERS && k < 0x4000
  {
    if ptr == 10 then Stopped([], TooManyPtr) else Walk(msg, k, ptr + 1, if ptr == 0 then end else newOff, true)
  }

  lemma {:induction false} StepOverPointer(msg: seq<byte>, cur: nat, k: nat, ptr: nat, newOff: u16)
    requires |msg| <= 0xffff && ptr <= MAX_POINTERS && k < 0x4000 && Holds(msg, cur, PointerBytes(k))
    ensures Walk(msg, cur, ptr, newOff, true) == FromPointer(msg, cur + 2, k, ptr, newOff)
  {
    assert msg[cur] == msg[cur..cur + 2][0] && msg[cur + 1] == msg[cur..cur + 2][1];
  }

  lemma {:induction false} StepOverEnd(msg: seq<byte>, cur: nat, ptr: nat, newOff: u16, allow: bool)
    requires |msg| <= 0xffff && ptr <= MAX_POINTERS && Holds(msg, cur, [0])
    ensures Walk(msg, cur, ptr, newOff, allow) == Done([], if ptr == 0 then cur + 1 else newOff)
  {
    assert msg[cur] == msg[cur..cur + 1][0];
  }

  /** The step from one piece of a chain to what follows it. */
  lemma {:induction false} StepOverPiece(msg: seq<byte>, p: Piece, tail: seq<byte>, ptr: nat, newOff: u16)
    requires |msg| <= 0xffff && ptr <= 10 && GoodLabels(p.labels)
    requires Holds(msg, p.off, Body(p.labels) + tail) && tail != []
    ensures var end := p.off + |Body(p.labels)|;
            && end < |msg| && Holds(msg, end, tail)
            && Walk(msg, p.off, ptr, newOff, true) == After(p.labels, Walk(msg, end, ptr, newOff, true))
  {
    HoldsBoth(msg, p.off, Body(p.labels), tail);
    StepOverBody(msg, p.off, p.labels, ptr, newOff, true);
  }

  lemma {:induction false} StepOverLast(msg: seq<byte>, p: Piece, ptr: nat, newOff: u16)
    requires |msg| <= 0xffff && ptr <= 10 && GoodLabels(p.labels) && Holds(msg, p.off, Body(p.labels) + [0])
    ensures p.off + |Body(p.labels)| < |msg|
    ensures Walk(msg, p.off, ptr, newOff, true)
            == Done(p.labels, if ptr == 0 then p.off + |Body(p.labels)| + 1 else newOff)
  {
    StepOverPiece(msg, p, [0], ptr, newOff);
    StepOverEnd(msg, p.off + |Body(p.labels)|, ptr, newOff, true);
    assert p.labels + [] == p.labels;
  }

  lemma {:induction false} StepToNext(msg: seq<byte>, p: Piece, k: nat, ptr: nat, newOff: u16)
    requires |msg| <= 0xffff && ptr <= 10 && GoodLabels(p.labels)
    requires k < 0x4000 && Holds(msg, p.off, Body(p.labels) + PointerBytes(k))
    ensures p.off + |Body(p.labels)| + 2 <= |msg|
    ensures Walk(msg, p.off, ptr, newOff, true)
            == After(p.labels, FromPointer(msg, p.off + |Body(p.labels)| + 2, k, ptr, newOff))
  {
    StepOverPiece(msg, p, PointerBytes(k), ptr, newOff);
    StepOverPointer(msg, p.off + |Body(p.labels)|, k, ptr, newOff);
  }

  /** A chain is walked to its end, unless it takes too many pointers. */
  lemma {:induction false} ChainWalks(msg: seq<byte>, ps: seq<Piece>, ptr: nat, newOff: u16)
    requires |msg| <= 0xffff && ptr <= 10 && Chain(msg, ps)
    ensures ps[0].off <= 0xffff
    ensures var w := Walk(msg, ps[0].off, ptr, newOff, true);
            if ptr + |ps| <= 11 then w == Done(Spelled(ps), if ptr == 0 then EndInPlace(ps) else newOff)
            else w.Stopped? && w.err == TooManyPtr
    decreases |ps|
  {
    if |ps| == 1 {
      StepOverLast(msg, ps[0], ptr, newOff);
      assert Spelled(ps) == ps[0].labels + [];
    } else {
      StepToNext(msg, ps[0], ps[1].off, ptr, newOff);
      if ptr < 10 {
        ChainWalks(msg, ps[1..], ptr + 1, if ptr == 0 then EndInPlace(ps) else newOff);
      }
    }
  }

  // ---------------------------------------------------------------------------------------------
  // Whatever is walked is a chain

  lemma {:induction false} WalkedIsChain(msg: seq<byte>, cur: u16, ptr: nat, newOff: u16, allow: bool)
    returns (ps: seq<Piece>)
    requires |msg| <= 0xffff && ptr <= 10 && Walk(msg, cur, ptr, newOff, allow).Done?
    ensures Chain(msg, ps) && ps[0].off == cur && ptr + |ps| <= 11 && (!allow ==> |ps| == 1)
    ensures Walk(msg, cur, ptr, newOff, allow).labels == Spelled(ps)
    decreases MAX_POINTERS - ptr, |msg| - cur
  {
    var c := msg[cur];
    if c == 0 {
      ps := [Piece(cur, [])];
      assert Body([]) + [0] == [0] && msg[cur..cur + 1] == [0] && Spelled(ps) == [] + [];
    } else if c < 64 {
      var qs := WalkedIsChain(msg, cur + 1 + c, ptr, newOff, allow);
      ps := LabelInFront(msg, cur, msg[cur + 1..cur + 1 + c], qs);
    } else {
      var k := Pointer(c, msg[cur + 1]);
      PointerParts(c, msg[cur + 1]);
      var qs := WalkedIsChain(msg, k, ptr + 1, if ptr == 0 then cur + 2 else newOff, allow);
      ps := PointerInFront(msg, cur, qs);
    }
  }

  lemma PointerParts(c: byte, c1: byte)
    requires c >= 192
    ensures var k := Pointer(c, c1);
            k < 0x4000 && c == 192 + k / 256 && c1 == k % 256
  {
  }

  lemma {:induction false} PointerInFront(msg: seq<byte>, cur: nat, qs: seq<Piece>) returns (ps: seq<Piece>)
    requires Chain(msg, qs) && qs[0].off < 0x4000 && cur + 1 < |msg|
    requires msg[cur] == 192 + qs[0].off / 256 && msg[cur + 1] == qs[0].off % 256
    ensures |ps| == |qs| + 1 && Chain(msg, ps) && ps[0].off == cur && Spelled(ps) == Spelled(qs)
  {
    ps := [Piece(cur, [])] + qs;
    assert ps[1..] == qs && ps[1] == qs[0];
    assert Body([]) + PointerBytes(qs[0].off) == PointerBytes(qs[0].off) == msg[cur..cur + 2];
    assert Spelled(ps) == [] + Spelled(qs);
  }

  /** What follows the first piece of a chain. */
  function Follower(qs: seq<Piece>): (tail: seq<byte>)
    requires |qs| > 1 ==> qs[1].off < 0x4000
  {
    if |qs| <= 1 then [0] else PointerBytes(qs[1].off)
  }

  lemma {:induction false} LabelInFront(msg: seq<byte>, cur: nat, l: seq<byte>, qs: seq<Piece>) returns (ps: seq<Piece>)
    requires Chain(msg, qs) && GoodLabel(l) && qs[0].off == cur + 1 + |l| && cur + 1 + |l| <= |msg|
    requires msg[cur] == |l| && msg[cur + 1..cur + 1 + |l|] == l
    ensures |ps| == |qs| && Chain(msg, ps) && ps[0].off == cur && Spelled(ps) == [l] + Spelled(qs)
  {
    var ls := [l] + qs[0].labels;
    ps := [Piece(cur, ls)] + qs[1..];
    LongerBody(msg, cur, l, qs[0].labels, Follower(qs));
    assert ps[1..] == qs[1..] && (|qs| > 1 ==> ps[1] == qs[1]);
    Rejoin(l, qs[0].labels, Spelled(qs[1..]));
  }

  lemma Rejoin(l: seq<byte>, ls: seq<seq<byte>>, rest: seq<seq<byte>>)
    ensures [l] + ls + rest == [l] + (ls + rest)
  {
  }

  lemma {:induction false} LongerBody(msg: seq<byte>, cur: nat, l: seq<byte>, ls: seq<seq<byte>>, tail: seq<byte>)
    requires GoodLabel(l) && GoodLabels(ls) && Holds(msg, cur + 1 + |l|, Body(ls) + tail)
    requires cur + 1 + |l| <= |msg| && msg[cur] == |l| && msg[cur + 1..cur + 1 + |l|] == l
    ensures GoodLabels([l] + ls) && Holds(msg, cur, Body([l] + ls) + tail)
  {
    assert ([l] + ls)[1..] == ls;
    assert Body([l] + ls) + tail == ([|l|] + l) + (Body(ls) + tail);
    assert msg[cur..cur + 1 + |l|] == [|l|] + l;
    HoldsBoth(msg, cur, [|l|] + l, Body(ls) + tail);
  }

  // ---------------------------------------------------------------------------------------------
  // The results

  lemma {:induction false} RawOfGood(ls: seq<seq<byte>>)
    requires GoodLabels(ls)
    ensures Raw(ls) + [0] == Encode(ls)
  {
    RawIsBody(ls);
  }

  lemma {:induction false} SpelledGood(msg: seq<byte>, ps: seq<Piece>)
    requires Chain(msg, ps)
    ensures GoodLabels(Spelled(ps))
    decreases |ps|
  {
    if |ps| > 1 {
      SpelledGood(msg, ps[1..]);
    } else {
      assert ps[1..] == [];
    }
  }

  /** A chain with at most ten pointers decodes to the labels along it, and the next record starts just past what is in
      place; with eleven or more it is refused. */
  lemma {:induction false} ChainDecodes(msg: seq<byte>, ps: seq<Piece>)
    requires |msg| <= 0xffff && Chain(msg, ps)
    ensures ps[0].off <= 0xffff && GoodLabels(Spelled(ps))
    ensures if |ps| <= 11 then DecodeName(msg, ps[0].off) == Name(Encode(Spelled(ps)), EndInPlace(ps))
            else DecodeName(msg, ps[0].off) == NameError(TooManyPtr)
  {
    SpelledGood(msg, ps);
    ChainWalks(msg, ps, 0, if ps[0].off <= 0xffff then ps[0].off else 0);
    RawOfGood(Spelled(ps));
  }

  /** A name at an offset decodes if and only if a chain with at most ten pointers starts there. */
  lemma {:induction false} DecodesIff(msg: seq<byte>, off: u16)
    requires |msg| <= 0xffff
    ensures DecodeName(msg, off).Name? <==> exists ps: seq<Piece> :: Chain(msg, ps) && ps[0].off == off && |ps| <= 11
  {
    if DecodeName(msg, off).Name? {
      var ps := WalkedIsChain(msg, off, 0, off, true);
    }
    forall ps: seq<Piece> | Chain(msg, ps) && ps[0].off == off && |ps| <= 11
      ensures DecodeName(msg, off).Name?
    {
      ChainDecodes(msg, ps);
    }
  }

  /** Where pointers are not allowed, a name is walked over if and only if it lies there in one piece. */
  lemma {:induction false} UncompressedIff(msg: seq<byte>, off: u16)
    requires |msg| <= 0xffff
    ensures VisitAllLabels(msg, off, false).Done? <==>
              exists ls :: GoodLabels(ls) && Holds(msg, off, Encode(ls))
  {
    if VisitAllLabels(msg, off, false).Done? {
      var ps := WalkedIsChain(msg, off, 0, off, false);
      assert Holds(msg, off, Encode(ps[0].labels));
    }
    forall ls | GoodLabels(ls) && Holds(msg, off, Encode(ls))
      ensures VisitAllLabels(msg, off, false).Done?
    {
      HoldsBoth(msg, off, Body(ls), [0]);
      StepOverBody(msg, off, ls, 0, off, false);
      StepOverEnd(msg, off + |Body(ls)|, 0, off, false);
    }
  }

  /** A name whose end is a pointer to an earlier one: its own labels, then those of the other, and the next record just
      past the two bytes of the pointer. */
  lemma {:induction false} PointerDecodes(msg: seq<byte>, off: nat, ls: seq<seq<byte>>, k: nat, t: seq<seq<byte>>)
    requires |msg| <= 0xffff && k < 0x4000 && GoodLabels(ls) && GoodLabels(t)
    requires Holds(msg, off, Body(ls) + [192 + k / 256, k % 256]) && Holds(msg, k, Encode(t))
    ensures GoodLabels(ls + t) && off <= 0xffff
    ensures DecodeName(msg, off) == Name(Encode(ls + t), off + |Body(ls)| + 2)
  {
    var ps := [Piece(off, ls), Piece(k, t)];
    assert ps[1..] == [Piece(k, t)] && ps[1..][1..] == [];
    ChainDecodes(msg, ps);
    assert Spelled(ps[1..]) == t + [] == t;
  }

  /** A name in one piece. */
  lemma {:induction false} OneLabel(l: seq<byte>)
    requires GoodLabel(l)
    ensures Encode([l]) == [|l|] + l + [0]
  {
    var ls := [l];
    assert Body(ls[1..]) == [];
    assert Body(ls) == [|l|] + l + Body(ls[1..]);
  }

  /** Twelve bytes of header, the name "a" and a pointer to it: it decodes to "a", and ends with the pointer. */
  lemma {:induction false} PointerExample(header: seq<byte>)
    requires |header| == 12
    ensures DecodeName(header + [1, 97, 0, 0xC0, 12], 15) == Name([1, 97, 0], 17)
  {
    var msg := header + [1, 97, 0, 0xC0, 12];
    var own: seq<seq<byte>>, other: seq<seq<byte>> := [], [[97]];
    OneLabel([97]);
    assert msg[15..17] == [0xC0, 12] == Body(own) + [0xC0, 12];
    assert msg[12..15] == [1, 97, 0] == Encode(other);
    PointerDecodes(msg, 15, own, 12, other);
    assert own + other == other && |Body(own)| == 0;
    assert DecodeName(msg, 15) == Name(Encode(other), 17);
  }
}
