/** DNS messages byte by byte (section 4.1 of RFC 1035; eth/dns/types.go): where the fields of printed records lie,
    which records decode and to what, and why the others do not. */
module DnsLayout {
  import opened Rings
  import opened Checksum
  import opened DnsNames
  import opened DnsMessages
  import opened DnsChains

  /** Two bytes of a message as a number. */
  function WordAt(f: seq<byte>, i: nat): nat
    requires i + 2 <= |f|
  {
    (f[i] as int) * 256 + f[i + 1] as int
  }

  function LongAt(f: seq<byte>, i: nat): nat
    requires i + 4 <= |f|
  {
    (f[i] as int) * 0x100_0000 + (f[i + 1] as int) * 0x1_0000 + (f[i + 2] as int) * 256 + f[i + 3] as int
  }

  // ---------------------------------------------------------------------------------------------
  // Printing

  /** A printed message starts with its number and its flags, and with how many records of each kind follow; those come
      in the same order. */
  lemma {:induction false} MessageLayout(m: Message)
    ensures var b := MessageBytes(m);
            && |b| >= 12 && WordAt(b, 0) == m.header.id && WordAt(b, 2) == m.header.flags
            && WordAt(b, 4) == |m.questions| % 0x1_0000 && WordAt(b, 6) == |m.answers| % 0x1_0000
            && WordAt(b, 8) == |m.authorities| % 0x1_0000 && WordAt(b, 10) == |m.additionals| % 0x1_0000
            && b[12..] == SectionBytes(QuestionBytes, m.questions) + SectionBytes(ResourceBytes, m.answers)
                          + SectionBytes(ResourceBytes, m.authorities) + SectionBytes(ResourceBytes, m.additionals)
  {
    var h := HeaderBytes(Counted(m));
    var q, a := QuestionsBytes(m.questions), ResourcesBytes(m.answers);
    var n, d := ResourcesBytes(m.authorities), ResourcesBytes(m.additionals);
    assert q + (a + (n + d)) == q + a + n + d;
    HeaderLayout(Counted(m));
    assert MessageBytes(m)[12..] == q + (a + (n + d));
    assert forall i :: 0 <= i < 12 ==> MessageBytes(m)[i] == h[i];
  }

  lemma HeaderLayout(h: Header)
    ensures var b := HeaderBytes(h);
            && WordAt(b, 0) == h.id && WordAt(b, 2) == h.flags && WordAt(b, 4) == h.qd && WordAt(b, 6) == h.an
            && WordAt(b, 8) == h.ns && WordAt(b, 10) == h.ar
  {
  }

  /** A question is its name, its type and its class. */
  lemma {:induction false} QuestionLayout(q: Question)
    ensures var b, n := QuestionBytes(q), |q.name|;
            && |b| == n + 4 && b[..n] == q.name && WordAt(b, n) == q.qtype && WordAt(b, n + 2) == q.qclass
  {
  }

  /** A resource is its name, its type, its class, its time to live in seconds, the length of its data and the data. */
  lemma {:induction false} ResourceLayout(r: Resource)
    ensures var b, n := ResourceBytes(r), |r.name|;
            && |b| == n + 10 + |r.data| && b[..n] == r.name
            && WordAt(b, n) == r.rtype && WordAt(b, n + 2) == r.rclass && LongAt(b, n + 4) == r.ttl
            && WordAt(b, n + 8) == |r.data| % 0x1_0000 && b[n + 10..] == r.data
  {
    FixedLayout(r);
    Between(r.name, FixedBytes(r), r.data);
    Shifted(ResourceBytes(r), |r.name|, FixedBytes(r));
  }

  lemma Between(a: seq<byte>, f: seq<byte>, c: seq<byte>)
    ensures var b := a + f + c;
            && |b| == |a| + |f| + |c| && b[..|a|] == a && b[|a| + |f|..] == c
            && forall i :: 0 <= i < |f| ==> b[|a| + i] == f[i]
  {
  }

  lemma FixedLayout(r: Resource)
    ensures var f := FixedBytes(r);
            && WordAt(f, 0) == r.rtype && WordAt(f, 2) == r.rclass && LongAt(f, 4) == r.ttl
            && WordAt(f, 8) == |r.data| % 0x1_0000
  {
    var f := FixedBytes(r);
    assert f[4..8] == Bytes32(r.ttl);
    assert f[4] == f[4..8][0] && f[5] == f[4..8][1] && f[6] == f[4..8][2] && f[7] == f[4..8][3];
  }

  lemma Shifted(b: seq<byte>, n: nat, f: seq<byte>)
    requires |f| == 10 && n + 10 <= |b| && forall i :: 0 <= i < 10 ==> b[n + i] == f[i]
    ensures WordAt(b, n) == WordAt(f, 0) && WordAt(b, n + 2) == WordAt(f, 2) && LongAt(b, n + 4) == LongAt(f, 4)
    ensures WordAt(b, n + 8) == WordAt(f, 8)
  {
    assert b[n] == b[n + 0] && b[n + 1] == f[1] && b[n + 2] == f[2] && b[n + 3] == f[3] && b[n + 4] == f[4];
    assert b[n + 5] == f[5] && b[n + 6] == f[6] && b[n + 7] == f[7] && b[n + 8] == f[8] && b[n + 9] == f[9];
  }

  // ---------------------------------------------------------------------------------------------
  // Parsing

  /** A question decodes exactly when its name does and four bytes follow; they are its type and its class. */
  lemma {:induction false} QuestionDecodesIff(msg: seq<byte>, off: u16)
    requires |msg| <= 0xffff - 63
    ensures var n := DecodeName(msg, off);
            && (DecodeQuestion(msg, off).Got? <==> n.Name? && n.off + 4 <= |msg|)
            && (n.Name? && n.off + 4 <= |msg| ==>
                  DecodeQuestion(msg, off)
                  == Got(Question(n.data, WordAt(msg, n.off), WordAt(msg, n.off + 2)), n.off + 4))
            && (n.Name? && n.off + 4 > |msg| ==> DecodeQuestion(msg, off) == Failed(ResourceLen))
            && (n.NameError? ==> DecodeQuestion(msg, off) == Failed(n.err))
  {
    if DecodeName(msg, off).Name? {
      NameEndsInside(msg, off);
    }
  }

  lemma {:induction false} NameEndsInside(msg: seq<byte>, off: u16)
    requires |msg| <= 0xffff && DecodeName(msg, off).Name?
    ensures DecodeName(msg, off).off <= |msg|
  {
    WalkSound(msg, off, 0, off, true);
  }

  /** A resource decodes exactly when its name does, ten bytes follow, and as much data as the last two of them say. */
  lemma {:induction false} ResourceDecodesIff(msg: seq<byte>, off: u16)
    requires |msg| <= 0xffff - 63
    ensures var n := DecodeName(msg, off);
            var whole := n.Name? && n.off + 10 <= |msg| && n.off + 10 + WordAt(msg, n.off + 8) <= |msg|;
            && (DecodeResource(msg, off).Got? <==> whole)
            && (whole ==>
                  var l := WordAt(msg, n.off + 8);
                  DecodeResource(msg, off)
                  == Got(Resource(n.data, WordAt(msg, n.off), WordAt(msg, n.off + 2), LongAt(msg, n.off + 4), l,
                                  msg[n.off + 10..n.off + 10 + l]), n.off + 10 + l))
            && (n.Name? && !whole ==> DecodeResource(msg, off) == Failed(ResourceLen))
            && (n.NameError? ==> DecodeResource(msg, off) == Failed(n.err))
  {
    if DecodeName(msg, off).Name? {
      NameEndsInside(msg, off);
    }
  }

  /** What a decoded message holds, however broken its records: as many of each kind as its header says and there is
      room for, and it says that it is incomplete when some were left out. */
  lemma {:induction false} DecodedCounts(msg: seq<byte>, caps: Caps)
    requires Decode(msg, caps).Decoded?
    ensures 12 <= |msg| <= 0xffff
    ensures var d := Decode(msg, caps);
            var qd, an, ns, ar := WordAt(msg, 4), WordAt(msg, 6), WordAt(msg, 8), WordAt(msg, 10);
            && |d.m.questions| == Min(qd, caps.questions) && |d.m.answers| == Min(an, caps.answers)
            && |d.m.authorities| == Min(ns, caps.authorities) && |d.m.additionals| == Min(ar, caps.additionals)
            && (d.incomplete <==>
                  qd > caps.questions || an > caps.answers || ns > caps.authorities || ar > caps.additionals)
            && d.m.header.id == WordAt(msg, 0) && d.m.header.flags == WordAt(msg, 2)
  {
    var s, h := StepsOf(msg), DecodeHeader(msg);
    SectionsCount(s, h, caps);
  }

  lemma {:induction false} SectionsCount(s: Steps, h: Header, caps: Caps)
    requires Sections(s, h, caps).Decoded?
    ensures var d := Sections(s, h, caps);
            && |d.m.questions| == Min(h.qd, caps.questions) && |d.m.answers| == Min(h.an, caps.answers)
            && |d.m.authorities| == Min(h.ns, caps.authorities) && |d.m.additionals| == Min(h.ar, caps.additionals)
            && d.m.header == h
            && (d.incomplete <==>
                  h.qd > caps.questions || h.an > caps.answers || h.ns > caps.authorities || h.ar > caps.additionals)
  {
    var q := Section(s.question, s.skipQuestion, SIZE_HEADER, h.qd, caps.questions);
    SectionCount(s.question, s.skipQuestion, SIZE_HEADER, h.qd, caps.questions);
    var a := Section(s.resource, s.skipResource, q.off, h.an, caps.answers);
    SectionCount(s.resource, s.skipResource, q.off, h.an, caps.answers);
    var n := Section(s.resource, s.skipResource, a.off, h.ns, caps.authorities);
    SectionCount(s.resource, s.skipResource, a.off, h.ns, caps.authorities);
    SectionCount(s.resource, s.skipResource, n.off, h.ar, caps.additionals);
  }

  lemma {:induction false} SectionCount<T>(decode: u16 -> Step<T>, skip: u16 -> Step<()>, off: u16, count: u16,
                                           cap: u16)
    requires Section(decode, skip, off, count, cap).Got?
    ensures |Section(decode, skip, off, count, cap).value| == Min(count, cap)
  {
    ManyCount(decode, off, Min(count, cap));
  }

  lemma {:induction false} ManyCount<T>(step: u16 -> Step<T>, off: u16, n: nat)
    requires DecodeMany(step, off, n).Got?
    ensures |DecodeMany(step, off, n).value| == n
    decreases n
  {
    if n > 0 {
      ManyCount(step, step(off).off, n - 1);
    }
  }

  // ---------------------------------------------------------------------------------------------
  // Why names are refused

  /** A name up to an offset: pieces joined by pointers, of which the last has no end yet. */
  predicate Trail(msg: seq<byte>, ps: seq<Piece>, o: nat) {
    && ps != [] && GoodLabels(ps[0].labels)
    && (if |ps| == 1 then
          && (ps[0].labels == [] || Holds(msg, ps[0].off, Body(ps[0].labels)))
          && o == ps[0].off + |Body(ps[0].labels)|
        else
          && ps[1].off < 0x4000 && Holds(msg, ps[0].off, Body(ps[0].labels) + PointerBytes(ps[1].off))
          && Trail(msg, ps[1..], o))
  }

  /** A walk along a trail comes to where it ends, with all but one of its pieces counted as pointers. */
  lemma {:induction false} TrailWalks(msg: seq<byte>, ps: seq<Piece>, o: nat, ptr: nat, newOff: u16)
    returns (end: u16, last: nat, newOff': u16)
    requires |msg| <= 0xffff && ptr + |ps| <= 11 && Trail(msg, ps, o) && ps[0].off <= 0xffff
    ensures end == o && last == ptr + |ps| - 1 <= 10
    ensures Walk(msg, ps[0].off, ptr, newOff, true) == After(Spelled(ps), Walk(msg, end, last, newOff', true))
    decreases |ps|
  {
    if |ps| == 1 {
      LastOfTrail(msg, ps[0], o, ptr, newOff);
      end, last, newOff' := o, ptr, newOff;
      assert Spelled(ps) == ps[0].labels + [] == ps[0].labels;
    } else {
      var next := NextPiece(msg, ps, o, ptr, newOff);
      end, last, newOff' := TrailWalks(msg, ps[1..], o, ptr + 1, next);
      AfterTwice(ps[0].labels, Spelled(ps[1..]), Walk(msg, end, last, newOff', true));
    }
  }

  lemma {:induction false} NextPiece(msg: seq<byte>, ps: seq<Piece>, o: nat, ptr: nat, newOff: u16) returns (next: u16)
    requires |msg| <= 0xffff && ptr <= 10 && Trail(msg, ps, o) && |ps| > 1
    ensures ps[0].off <= 0xffff
    ensures Walk(msg, ps[0].off, ptr, newOff, true)
            == if ptr == 10 then Stopped(ps[0].labels, TooManyPtr)
               else After(ps[0].labels, Walk(msg, ps[1].off, ptr + 1, next, true))
  {
    next := if ptr == 0 then EndInPlace(ps) else newOff;
    StepToNext(msg, ps[0], ps[1].off, ptr, newOff);
    assert ps[0].labels + [] == ps[0].labels;
  }

  lemma {:induction false} LastOfTrail(msg: seq<byte>, p: Piece, o: nat, ptr: nat, newOff: u16)
    requires |msg| <= 0xffff && ptr <= 10 && GoodLabels(p.labels) && p.off <= 0xffff
    requires p.labels == [] || Holds(msg, p.off, Body(p.labels))
    requires o == p.off + |Body(p.labels)|
    ensures o <= 0xffff && Walk(msg, p.off, ptr, newOff, true) == After(p.labels, Walk(msg, o, ptr, newOff, true))
  {
    if p.labels == [] {
      AfterNothing(Walk(msg, o, ptr, newOff, true));
    } else {
      StepOverBody(msg, p.off, p.labels, ptr, newOff, true);
    }
  }

  lemma AfterTwice(a: seq<seq<byte>>, b: seq<seq<byte>>, r: Walked)
    ensures After(a, After(b, r)) == After(a + b, r)
  {
    match r {
      case Done(ls, end) => assert a + (b + ls) == a + b + ls;
      case Stopped(ls, err) => assert a + (b + ls) == a + b + ls;
      case Panicked =>
    }
  }

  /** What can be wrong at an offset of a message. */
  predicate Wrong(msg: seq<byte>, o: nat, err: DnsErr) {
    if o >= |msg| then err == BaseLen
    else
      var c := msg[o];
      match err
      case CalcLen => 1 <= c <= 63 && o + 1 + c > |msg|
      case InvalidName => 1 <= c <= 63 && o + 1 + c <= |msg| && 46 in msg[o + 1..o + 1 + c]
      case Reserved => 64 <= c <= 191
      case InvalidPtr => 192 <= c && o + 1 == |msg|
      case _ => false
  }

  /** A trail that ends in something wrong, or in the eleventh pointer. */
  predicate LeadsTo(msg: seq<byte>, ps: seq<Piece>, o: nat, err: DnsErr, pieces: nat) {
    Trail(msg, ps, o) && if err == TooManyPtr then |ps| == pieces + 1 else |ps| <= pieces && Wrong(msg, o, err)
  }

  lemma {:induction false} WrongStops(msg: seq<byte>, o: u16, ptr: nat, newOff: u16, err: DnsErr)
    requires |msg| <= 0xffff - 63 && ptr <= 10 && Wrong(msg, o, err)
    ensures Walk(msg, o, ptr, newOff, true) == Stopped([], err)
  {
  }

  lemma {:induction false} LeadsToRefusal(msg: seq<byte>, ps: seq<Piece>, o: nat, err: DnsErr, ptr: nat, newOff: u16)
    requires |msg| <= 0xffff - 63 && ptr <= 10 && LeadsTo(msg, ps, o, err, 11 - ptr) && ps[0].off <= 0xffff
    ensures var w := Walk(msg, ps[0].off, ptr, newOff, true);
            w.Stopped? && w.err == err
    decreases |ps|
  {
    if ptr + |ps| <= 11 {
      var end, last, newOff' := TrailWalks(msg, ps, o, ptr, newOff);
      WrongStops(msg, end, last, newOff', err);
    } else {
      var next := NextPiece(msg, ps, o, ptr, newOff);
      if ptr < 10 {
        LeadsToRefusal(msg, ps[1..], o, err, ptr + 1, next);
      }
    }
  }

  lemma {:induction false} RefusalHasTrail(msg: seq<byte>, cur: u16, ptr: nat, newOff: u16, err: DnsErr)
    returns (ps: seq<Piece>, o: nat)
    requires |msg| <= 0xffff - 63 && ptr <= 10
    requires Walk(msg, cur, ptr, newOff, true).Stopped? && Walk(msg, cur, ptr, newOff, true).err == err
    ensures LeadsTo(msg, ps, o, err, 11 - ptr) && ps[0].off == cur
    decreases MAX_POINTERS - ptr, |msg| - cur
  {
    ps, o := [Piece(cur, [])], cur;
    if LabelFollows(msg, cur) {
      ps, o := RefusalHasTrail(msg, cur + 1 + msg[cur], ptr, newOff, err);
      ps := TrailLabel(msg, cur, msg[cur + 1..cur + 1 + msg[cur]], ps, o);
    } else if cur + 1 < |msg| && msg[cur] >= 192 {
      var k := Pointer(msg[cur], msg[cur + 1]);
      PointerParts(msg[cur], msg[cur + 1]);
      if ptr == 10 {
        ps, o := [Piece(k, [])], k;
      } else {
        ps, o := RefusalHasTrail(msg, k, ptr + 1, if ptr == 0 then cur + 2 else newOff, err);
      }
      ps := TrailPointer(msg, cur, ps, o);
    } else {
      StuckIsWrong(msg, cur, ptr, newOff, err);
    }
  }

  /** A good label lies at the offset. */
  predicate LabelFollows(msg: seq<byte>, cur: nat) {
    && cur < |msg| && 1 <= msg[cur] < 64 && cur + 1 + msg[cur] <= |msg|
    && DOT !in msg[cur + 1..cur + 1 + msg[cur]]
  }

  lemma {:induction false} StuckIsWrong(msg: seq<byte>, cur: u16, ptr: nat, newOff: u16, err: DnsErr)
    requires |msg| <= 0xffff - 63 && ptr <= 10 && !LabelFollows(msg, cur)
    requires cur + 1 < |msg| ==> msg[cur] < 192
    requires Walk(msg, cur, ptr, newOff, true).Stopped? && Walk(msg, cur, ptr, newOff, true).err == err
    ensures Wrong(msg, cur, err) && err != TooManyPtr
  {
  }

  lemma {:induction false} TrailPointer(msg: seq<byte>, cur: nat, qs: seq<Piece>, o: nat) returns (ps: seq<Piece>)
    requires Trail(msg, qs, o) && qs[0].off < 0x4000 && cur + 1 < |msg|
    requires msg[cur] == 192 + qs[0].off / 256 && msg[cur + 1] == qs[0].off % 256
    ensures |ps| == |qs| + 1 && Trail(msg, ps, o) && ps[0].off == cur
  {
    ps := [Piece(cur, [])] + qs;
    assert ps[1..] == qs && ps[1] == qs[0];
    assert Body([]) + PointerBytes(qs[0].off) == PointerBytes(qs[0].off) == msg[cur..cur + 2];
  }

  lemma {:induction false} TrailLabel(msg: seq<byte>, cur: nat, l: seq<byte>, qs: seq<Piece>, o: nat)
    returns (ps: seq<Piece>)
    requires Trail(msg, qs, o) && GoodLabel(l) && qs[0].off == cur + 1 + |l| && cur + 1 + |l| <= |msg|
    requires msg[cur] == |l| && msg[cur + 1..cur + 1 + |l|] == l
    ensures |ps| == |qs| && Trail(msg, ps, o) && ps[0].off == cur
  {
    var ls := qs[0].labels;
    var tail := if |qs| == 1 then [] else PointerBytes(qs[1].off);
    ps := [Piece(cur, [l] + ls)] + qs[1..];
    assert Body(ls) + [] == Body(ls);
    LongerBody(msg, cur, l, ls, tail);
    assert ps[1..] == qs[1..] && (|qs| > 1 ==> ps[1] == qs[1]);
    assert Body([l] + ls) + [] == Body([l] + ls);
    BodyLength(l, ls);
  }

  lemma BodyLength(l: seq<byte>, ls: seq<seq<byte>>)
    requires GoodLabel(l) && GoodLabels(ls)
    ensures |Body([l] + ls)| == 1 + |l| + |Body(ls)|
  {
    assert ([l] + ls)[1..] == ls;
  }

  /** A name is refused with an error exactly when a trail of at most ten pointers leads to what the error says: the end
      of the message, a label that runs over it or has a dot in it, a length of 64 to 191, half a pointer; or when a
      trail has an eleventh pointer. */
  lemma {:induction false} RefusedIff(msg: seq<byte>, off: u16, err: DnsErr)
    requires |msg| <= 0xffff - 63
    ensures DecodeName(msg, off) == NameError(err) <==>
              exists ps: seq<Piece>, o :: LeadsTo(msg, ps, o, err, 11) && ps[0].off == off
  {
    if DecodeName(msg, off) == NameError(err) {
      var ps, o := RefusalHasTrail(msg, off, 0, off, err);
    }
    forall ps: seq<Piece>, o | LeadsTo(msg, ps, o, err, 11) && ps[0].off == off
      ensures DecodeName(msg, off) == NameError(err)
    {
      LeadsToRefusal(msg, ps, o, err, 0, off);
    }
  }

  /** Where pointers are not allowed, labels that end in one are refused for it, and nothing else is. */
  lemma {:induction false} CompressedIff(msg: seq<byte>, off: u16)
    requires |msg| <= 0xffff
    ensures (VisitAllLabels(msg, off, false).Stopped? && VisitAllLabels(msg, off, false).err == CompressedSRV) <==>
              exists ls :: GoodLabels(ls) && Holds(msg, off, Body(ls)) && PointerFollows(msg, off + |Body(ls)|)
  {
    if VisitAllLabels(msg, off, false).Stopped? && VisitAllLabels(msg, off, false).err == CompressedSRV {
      var ls := LabelsBefore(msg, off, off);
    }
    forall ls | GoodLabels(ls) && Holds(msg, off, Body(ls)) && PointerFollows(msg, off + |Body(ls)|)
      ensures VisitAllLabels(msg, off, false).Stopped? && VisitAllLabels(msg, off, false).err == CompressedSRV
    {
      StepOverBody(msg, off, ls, 0, off, false);
    }
  }

  predicate PointerFollows(msg: seq<byte>, o: nat) {
    o < |msg| && msg[o] >= 192
  }

  lemma {:induction false} LabelsBefore(msg: seq<byte>, cur: u16, newOff: u16) returns (ls: seq<seq<byte>>)
    requires |msg| <= 0xffff
    requires Walk(msg, cur, 0, newOff, false).Stopped? && Walk(msg, cur, 0, newOff, false).err == CompressedSRV
    ensures GoodLabels(ls) && Holds(msg, cur, Body(ls)) && PointerFollows(msg, cur + |Body(ls)|)
    decreases |msg| - cur
  {
    ls := [];
    var c := msg[cur];
    if c < 64 {
      var rest := LabelsBefore(msg, cur + 1 + c, newOff);
      ls := MoreLabels(msg, cur, msg[cur + 1..cur + 1 + c], rest);
    }
  }

  lemma {:induction false} MoreLabels(msg: seq<byte>, cur: nat, l: seq<byte>, rest: seq<seq<byte>>)
    returns (ls: seq<seq<byte>>)
    requires GoodLabel(l) && GoodLabels(rest) && Holds(msg, cur + 1 + |l|, Body(rest))
    requires cur + 1 + |l| <= |msg| && msg[cur] == |l| && msg[cur + 1..cur + 1 + |l|] == l
    ensures GoodLabels(ls) && Holds(msg, cur, Body(ls)) && |Body(ls)| == 1 + |l| + |Body(rest)|
  {
    ls := [l] + rest;
    assert Body(rest) + [] == Body(rest) && Body(ls) + [] == Body(ls);
    LongerBody(msg, cur, l, rest, []);
    BodyLength(l, rest);
  }

  /** Messages that are too short or too long are refused as such. */
  lemma {:induction false} WrongSize(msg: seq<byte>, off: u16, caps: Caps)
    ensures |msg| < 12 ==> Decode(msg, caps) == DecodeFailed(BaseLen)
    ensures |msg| > 65535 ==> Decode(msg, caps) == DecodeFailed(ResTooLong)
    ensures |msg| > 65535 ==> DecodeName(msg, off) == NameError(ResTooLong)
  {
  }

  /** What skipping comes to, by the offset where the name ends. A resource is skipped by the length that its ninth and
      tenth byte say, modulo 2^16. */
  lemma {:induction false} SkipsByLength(msg: seq<byte>, off: u16)
    requires |msg| <= 0xffff - 63
    ensures match DecodeName(msg, off)
            case Name(_, o) =>
              && SkipQuestion(msg, off) == (if o + 4 <= |msg| then Got((), o + 4) else Failed(BaseLen))
              && (o + 10 > |msg| ==> SkipResource(msg, off) == Crashed)
              && (o + 10 <= |msg| ==>
                    var next := (o + 10 + WordAt(msg, o + 8)) % 0x1_0000;
                    SkipResource(msg, off) == if next <= |msg| then Got((), next) else Failed(BaseLen))
            case NameError(err) => SkipQuestion(msg, off) == Failed(err) && SkipResource(msg, off) == Failed(err)
            case NamePanic => false
  {
    ShortNeverPanics(msg, off, 0, off, true);
    if DecodeName(msg, off).Name? {
      NameEndsInside(msg, off);
    }
  }

  /** String of bytes that are no name gives the labels before what is wrong, and nothing when there are more than 255
      bytes. */
  lemma {:induction false} BrokenString(data: seq<byte>, ls: seq<seq<byte>>, err: DnsErr)
    requires |data| <= 255 ==> GoodLabels(ls) && Holds(data, 0, Body(ls)) && Wrong(data, |Body(ls)|, err)
    ensures NameString(data) == if |data| <= 255 then Dotted(ls) else []
  {
    if |data| <= 255 {
      StepOverBody(data, 0, ls, 0, 0, true);
      WrongStops(data, |Body(ls)|, 0, 0, err);
      assert ls + [] == ls;
    }
  }
}
