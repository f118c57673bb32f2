/** DNS messages: printing and parsing with limited capacities (eth/dns/types.go). */
module DnsMessages {
  import opened Rings
  import opened Checksum
  import opened DnsNames

  const SIZE_HEADER: nat := 12

  datatype Header = Header(id: u16, flags: u16, qd: u16, an: u16, ns: u16, ar: u16)

  datatype Question = Question(name: seq<byte>, qtype: u16, qclass: u16)

  datatype Resource = Resource(name: seq<byte>, rtype: u16, rclass: u16, ttl: u32, length: u16, data: seq<byte>)

  datatype Message = Message(header: Header, questions: seq<Question>, answers: seq<Resource>,
                             authorities: seq<Resource>, additionals: seq<Resource>)

  /** How many records of each section a message has room for, as the 16-bit numbers the code takes them for. */
  datatype Caps = Caps(questions: u16, answers: u16, authorities: u16, additionals: u16)

  // ---------------------------------------------------------------------------------------------
  // Printing

  function HeaderBytes(h: Header): (b: seq<byte>)
    ensures |b| == SIZE_HEADER
  {
    Bytes16(h.id) + Bytes16(h.flags) + Bytes16(h.qd) + Bytes16(h.an) + Bytes16(h.ns) + Bytes16(h.ar)
  }

  function QuestionBytes(q: Question): seq<byte> {
    q.name + Bytes16(q.qtype) + Bytes16(q.qclass)
  }

  /** Type, class, time to live and the length of the data. */
  function FixedBytes(r: Resource): (b: seq<byte>)
    ensures |b| == 10
  {
    Bytes16(r.rtype) + Bytes16(r.rclass) + Bytes32(r.ttl) + Bytes16(|r.data| % 0x1_0000)
  }

  function ResourceBytes(r: Resource): seq<byte> {
    r.name + FixedBytes(r) + r.data
  }

  /** The records of a section, one after the other. */
  function SectionBytes<T>(bytes: T -> seq<byte>, xs: seq<T>): seq<byte> {
    if xs == [] then [] else bytes(xs[0]) + SectionBytes(bytes, xs[1..])
  }

  function QuestionsBytes(qs: seq<Question>): seq<byte> {
    SectionBytes(QuestionBytes, qs)
  }

  function ResourcesBytes(rs: seq<Resource>): seq<byte> {
    SectionBytes(ResourceBytes, rs)
  }

  /** The header with the counts of the sections. */
  function Counted(m: Message): Header {
    m.header.(qd := |m.questions| % 0x1_0000, an := |m.answers| % 0x1_0000,
              ns := |m.authorities| % 0x1_0000, ar := |m.additionals| % 0x1_0000)
  }

  function MessageBytes(m: Message): seq<byte> {
    HeaderBytes(Counted(m)) + (QuestionsBytes(m.questions) + (ResourcesBytes(m.answers)
    + (ResourcesBytes(m.authorities) + ResourcesBytes(m.additionals))))
  }

  predicate Named(m: Message) {
    && (forall i :: 0 <= i < |m.questions| ==> m.questions[i].name != [])
    && (forall i :: 0 <= i < |m.answers| ==> m.answers[i].name != [])
    && (forall i :: 0 <= i < |m.authorities| ==> m.authorities[i].name != [])
    && (forall i :: 0 <= i < |m.additionals| ==> m.additionals[i].name != [])
  }

  datatype Printed = Printed(bytes: seq<byte>) | Nameless

  /** A record without a name cannot be printed. */
  function AppendTo(m: Message): Printed {
    if Named(m) then Printed(MessageBytes(m)) else Nameless
  }

  // ---------------------------------------------------------------------------------------------
  // Parsing

  function DecodeHeader(b: seq<byte>): Header
    requires |b| >= SIZE_HEADER
  {
    Header(At16(b, 0), At16(b, 2), At16(b, 4), At16(b, 6), At16(b, 8), At16(b, 10))
  }

  /** A parsing step gives a value and the offset where the next one starts. */
  datatype Step<T> = Got(value: T, off: u16) | Failed(err: DnsErr) | Crashed

  function DecodeQuestion(msg: seq<byte>, off: u16): Step<Question>
    requires |msg| <= 0xffff
  {
    match DecodeName(msg, off)
    case NameError(err) => Failed(err)
    case NamePanic => Crashed
    case Name(name, o) =>
      if Add16(o, 4) > |msg| then Failed(ResourceLen)
      else if o + 4 > |msg| then Crashed
      else Got(Question(name, At16(msg, o), At16(msg, o + 2)), o + 4)
  }

  function DecodeResource(msg: seq<byte>, off: u16): Step<Resource>
    requires |msg| <= 0xffff
  {
    match DecodeName(msg, off)
    case NameError(err) => Failed(err)
    case NamePanic => Crashed
    case Name(name, o) =>
      if Add16(o, 10) > |msg| then Failed(ResourceLen)
      else if o + 10 > |msg| then Crashed
      else
        var length := At16(msg, o + 8);
        var start := o + 10;
        if length > |msg| - start then Failed(ResourceLen)
        else Got(Resource(name, At16(msg, o), At16(msg, o + 2), At32(msg, o + 4), length, msg[start..start + length]),
                 start + length)
  }

  function SkipQuestion(msg: seq<byte>, off: u16): Step<()>
    requires |msg| <= 0xffff
  {
    match VisitAllLabels(msg, off, true)
    case Stopped(_, err) => Failed(err)
    case Panicked => Crashed
    case Done(_, o) => if Add16(o, 4) > |msg| then Failed(BaseLen) else Got((), Add16(o, 4))
  }

  /** Skipping reads the length without a check, and adds to the offset in 16 bits. */
  function SkipResource(msg: seq<byte>, off: u16): Step<()>
    requires |msg| <= 0xffff
  {
    match VisitAllLabels(msg, off, true)
    case Stopped(_, err) => Failed(err)
    case Panicked => Crashed
    case Done(_, o) =>
      if o + 10 > |msg| then Crashed
      else
        var next := Add16(o, Add16(At16(msg, o + 8), 10));
        if next > |msg| then Failed(BaseLen) else Got((), next)
  }

  /** Decoding n records with the given step. */
  function DecodeMany<T>(step: u16 -> Step<T>, off: u16, n: nat): Step<seq<T>>
    decreases n
  {
    if n == 0 then Got([], off)
    else match step(off)
      case Failed(err) => Failed(err)
      case Crashed => Crashed
      case Got(x, o) =>
        match DecodeMany(step, o, n - 1)
        case Failed(err) => Failed(err)
        case Crashed => Crashed
        case Got(xs, o') => Got([x] + xs, o')
  }

  function SkipMany(step: u16 -> Step<()>, off: u16, n: nat): Step<()>
    decreases n
  {
    if n == 0 then Got((), off)
    else match step(off)
      case Failed(err) => Failed(err)
      case Crashed => Crashed
      case Got(_, o) => SkipMany(step, o, n - 1)
  }

  /** How many of a section's records are decoded. */
  function Limit(count: u16, cap: u16): u16 {
    if count > cap then cap else count
  }

  /** One section: as many records as there is room for are decoded, the others skipped. */
  function Section<T>(decode: u16 -> Step<T>, skip: u16 -> Step<()>, off: u16, count: u16, cap: u16): Step<seq<T>> {
    match DecodeMany(decode, off, Limit(count, cap))
    case Failed(err) => Failed(err)
    case Crashed => Crashed
    case Got(xs, o) =>
      match SkipMany(skip, o, count - Limit(count, cap))
      case Failed(err) => Failed(err)
      case Crashed => Crashed
      case Got(_, o') => Got(xs, o')
  }

  datatype Decoded = Decoded(m: Message, off: u16, incomplete: bool) | DecodeFailed(err: DnsErr) | DecodePanic

  predicate TooMany(h: Header, caps: Caps) {
    h.qd > caps.questions || h.an > caps.answers || h.ns > caps.authorities || h.ar > caps.additionals
  }

  /** The ways of decoding and skipping a question and a resource at an offset. */
  datatype Steps = Steps(question: u16 -> Step<Question>, skipQuestion: u16 -> Step<()>,
                         resource: u16 -> Step<Resource>, skipResource: u16 -> Step<()>)

  function StepsOf(msg: seq<byte>): Steps
    requires |msg| <= 0xffff
  {
    Steps((o: u16) => DecodeQuestion(msg, o), (o: u16) => SkipQuestion(msg, o),
          (o: u16) => DecodeResource(msg, o), (o: u16) => SkipResource(msg, o))
  }

  /** The sections behind a header, in order. */
  function Sections(s: Steps, h: Header, caps: Caps): Decoded {
    match Section(s.question, s.skipQuestion, SIZE_HEADER, h.qd, caps.questions)
    case Failed(err) => DecodeFailed(err)
    case Crashed => DecodePanic
    case Got(qs, o1) =>
      match Section(s.resource, s.skipResource, o1, h.an, caps.answers)
      case Failed(err) => DecodeFailed(err)
      case Crashed => DecodePanic
      case Got(ans, o2) =>
        match Section(s.resource, s.skipResource, o2, h.ns, caps.authorities)
        case Failed(err) => DecodeFailed(err)
        case Crashed => DecodePanic
        case Got(auths, o3) =>
          match Section(s.resource, s.skipResource, o3, h.ar, caps.additionals)
          case Failed(err) => DecodeFailed(err)
          case Crashed => DecodePanic
          case Got(adds, o4) => Decoded(Message(h, qs, ans, auths, adds), o4, TooMany(h, caps))
  }

  function Decode(msg: seq<byte>, caps: Caps): Decoded {
    if |msg| < SIZE_HEADER then DecodeFailed(BaseLen)
    else if |msg| > 0xffff then DecodeFailed(ResTooLong)
    else Sections(StepsOf(msg), DecodeHeader(msg), caps)
  }

  // ---------------------------------------------------------------------------------------------
  // Round trip

  /** A name in wire format, without pointers. */
  ghost predicate WellFormed(name: seq<byte>) {
    exists ls: seq<seq<byte>> :: GoodLabels(ls) && name == Encode(ls)
  }

  ghost predicate GoodQuestion(q: Question) {
    WellFormed(q.name)
  }

  /** A record with a well-formed name that states the length of its data. */
  ghost predicate GoodResource(r: Resource) {
    WellFormed(r.name) && r.length == |r.data|
  }

  ghost predicate GoodQuestions(qs: seq<Question>) {
    forall i :: 0 <= i < |qs| ==> GoodQuestion(qs[i])
  }

  ghost predicate GoodResources(rs: seq<Resource>) {
    forall i :: 0 <= i < |rs| ==> GoodResource(rs[i])
  }

  ghost predicate GoodMessage(m: Message) {
    && GoodQuestions(m.questions) && GoodResources(m.answers)
    && GoodResources(m.authorities) && GoodResources(m.additionals)
    && m.header == Counted(m)
    && |MessageBytes(m)| <= 0xffff
  }

  /** The bytes are found in the message at the offset. */
  predicate HasAt(msg: seq<byte>, off: nat, bytes: seq<byte>) {
    off + |bytes| <= |msg| && msg[off..off + |bytes|] == bytes
  }

  lemma {:induction false} HasAtSplit(msg: seq<byte>, off: nat, a: seq<byte>, b: seq<byte>)
    requires HasAt(msg, off, a + b)
    ensures HasAt(msg, off, a) && HasAt(msg, off + |a|, b)
  {
    var ab := msg[off..off + |a + b|];
    assert ab[..|a|] == a && ab[|a|..] == b;
  }

  lemma {:induction false} At16Of(msg: seq<byte>, off: nat, v: u16)
    requires HasAt(msg, off, Bytes16(v))
    ensures At16(msg, off) == v
  {
    WordOfBytes(v);
    assert msg[off] == msg[off..off + 2][0] && msg[off + 1] == msg[off..off + 2][1];
  }

  lemma {:induction false} At32Of(msg: seq<byte>, off: nat, v: u32)
    requires HasAt(msg, off, Bytes32(v))
    ensures At32(msg, off) == v
  {
    HasAtSplit(msg, off, Bytes16(v / 0x1_0000), Bytes16(v % 0x1_0000));
    At16Of(msg, off, v / 0x1_0000);
    At16Of(msg, off + 2, v % 0x1_0000);
  }

  lemma {:induction false} NameAt(msg: seq<byte>, off: nat, name: seq<byte>)
    requires WellFormed(name) && |msg| <= 0xffff && HasAt(msg, off, name)
    ensures DecodeName(msg, off) == Name(name, off + |name|)
    ensures VisitAllLabels(msg, off, true).Done? && VisitAllLabels(msg, off, true).end == off + |name|
  {
    var ls: seq<seq<byte>> :| GoodLabels(ls) && name == Encode(ls);
    var pre, post := msg[..off], msg[off + |name|..];
    assert msg == pre + Encode(ls) + post;
    EncodedDecodes(ls, pre, post);
    WalkEncoded(pre, ls, post, true);
  }

  lemma {:induction false} QuestionAt(msg: seq<byte>, off: nat, q: Question)
    requires WellFormed(q.name) && |msg| <= 0xffff && HasAt(msg, off, QuestionBytes(q))
    ensures var next := off + |QuestionBytes(q)|;
            DecodeQuestion(msg, off) == Got(q, next) && SkipQuestion(msg, off) == Got((), next)
  {
    HasAtSplit(msg, off, q.name + Bytes16(q.qtype), Bytes16(q.qclass));
    HasAtSplit(msg, off, q.name, Bytes16(q.qtype));
    NameAt(msg, off, q.name);
    At16Of(msg, off + |q.name|, q.qtype);
    At16Of(msg, off + |q.name| + 2, q.qclass);
  }

  lemma {:induction false} FixedAt(msg: seq<byte>, off: nat, r: Resource)
    requires |r.data| <= 0xffff && HasAt(msg, off, FixedBytes(r))
    ensures At16(msg, off) == r.rtype && At16(msg, off + 2) == r.rclass
    ensures At32(msg, off + 4) == r.ttl && At16(msg, off + 8) == |r.data|
  {
    NumbersAt(msg, off, Bytes16(r.rtype) + Bytes16(r.rclass), r.ttl, |r.data|);
    TypeAt(msg, off, r);
  }

  lemma {:induction false} NumbersAt(msg: seq<byte>, off: nat, head: seq<byte>, ttl: u32, length: u16)
    requires |head| == 4 && HasAt(msg, off, head + Bytes32(ttl) + Bytes16(length))
    ensures HasAt(msg, off, head) && At32(msg, off + 4) == ttl && At16(msg, off + 8) == length
  {
    HasAtSplit(msg, off, head + Bytes32(ttl), Bytes16(length));
    HasAtSplit(msg, off, head, Bytes32(ttl));
    At32Of(msg, off + 4, ttl);
    At16Of(msg, off + 8, length);
  }

  lemma {:induction false} TypeAt(msg: seq<byte>, off: nat, r: Resource)
    requires HasAt(msg, off, Bytes16(r.rtype) + Bytes16(r.rclass))
    ensures At16(msg, off) == r.rtype && At16(msg, off + 2) == r.rclass
  {
    HasAtSplit(msg, off, Bytes16(r.rtype), Bytes16(r.rclass));
    At16Of(msg, off, r.rtype);
    At16Of(msg, off + 2, r.rclass);
  }

  /** Where the parts of a resource lie. */
  lemma {:induction false} PartsAt(msg: seq<byte>, off: nat, r: Resource)
    requires WellFormed(r.name) && |r.data| <= 0xffff && |msg| <= 0xffff && HasAt(msg, off, ResourceBytes(r))
    ensures var o := off + |r.name|;
            && HasAt(msg, off, r.name) && HasAt(msg, o, FixedBytes(r)) && HasAt(msg, o + 10, r.data)
            && |ResourceBytes(r)| == |r.name| + 10 + |r.data|
  {
    HasAtSplit(msg, off, r.name + FixedBytes(r), r.data);
    HasAtSplit(msg, off, r.name, FixedBytes(r));
  }

  /** What skipping a resource gives, once the end of its name is known. */
  lemma {:induction false} SkipFrom(msg: seq<byte>, off: u16, o: u16, length: u16)
    requires |msg| <= 0xffff && VisitAllLabels(msg, off, true).Done? && VisitAllLabels(msg, off, true).end == o
    requires o + 10 + length <= |msg| && At16(msg, o + 8) == length
    ensures SkipResource(msg, off) == Got((), o + 10 + length)
  {
  }

  lemma {:induction false} SkipResourceAt(msg: seq<byte>, off: nat, r: Resource)
    requires WellFormed(r.name) && |r.data| <= 0xffff && |msg| <= 0xffff && HasAt(msg, off, ResourceBytes(r))
    ensures SkipResource(msg, off) == Got((), off + |ResourceBytes(r)|)
  {
    PartsAt(msg, off, r);
    NameAt(msg, off, r.name);
    FixedAt(msg, off + |r.name|, r);
    SkipFrom(msg, off, off + |r.name|, |r.data|);
  }

  /** What decoding a resource gives, once its name is known. */
  lemma {:induction false} ResourceFrom(msg: seq<byte>, off: u16, name: seq<byte>, o: u16, length: u16)
    requires |msg| <= 0xffff && DecodeName(msg, off) == Name(name, o)
    requires o + 10 + length <= |msg| && At16(msg, o + 8) == length
    ensures DecodeResource(msg, off)
            == Got(Resource(name, At16(msg, o), At16(msg, o + 2), At32(msg, o + 4), length,
                            msg[o + 10..o + 10 + length]), o + 10 + length)
  {
  }

  lemma {:induction false} ResourceAt(msg: seq<byte>, off: nat, r: Resource)
    requires WellFormed(r.name) && r.length == |r.data| && |msg| <= 0xffff && HasAt(msg, off, ResourceBytes(r))
    ensures var next := off + |ResourceBytes(r)|;
            DecodeResource(msg, off) == Got(r, next) && SkipResource(msg, off) == Got((), next)
  {
    PartsAt(msg, off, r);
    NameAt(msg, off, r.name);
    FixedAt(msg, off + |r.name|, r);
    ResourceFrom(msg, off, r.name, off + |r.name|, r.length);
    SkipResourceAt(msg, off, r);
  }

  /** Decoding and skipping a resource agree: whatever decodes can be skipped to the same offset, and what can be
      skipped, counting without wrap-around and within the message, decodes. */
  lemma {:induction false} SkipAgrees(msg: seq<byte>, off: u16)
    requires |msg| <= 0xffff
    ensures DecodeResource(msg, off).Got? ==> SkipResource(msg, off) == Got((), DecodeResource(msg, off).off)
    ensures DecodeResource(msg, off).Got? <==>
              var w := VisitAllLabels(msg, off, true);
              SkipResource(msg, off).Got? && w.end + 10 + At16(msg, w.end + 8) <= |msg|
    ensures DecodeQuestion(msg, off).Got? ==> SkipQuestion(msg, off) == Got((), DecodeQuestion(msg, off).off)
  {
  }

  /** A header, a root name, eight bytes, and a length with which the end wraps around. */
  const WRAPPING: seq<byte> :=
    [0, 0, 0, 0, 0, 0, 0, 1, 0, 0, 0, 0, 0, 0, 0, 0, 0, 0, 0, 0, 0, 0xff, 0xf0]

  /** A message of 23 bytes whose resource skipping accepts, going back to offset 7, and decoding refuses. */
  lemma {:induction false} SkipGoesBack()
    ensures |WRAPPING| == 23
    ensures SkipResource(WRAPPING, 12) == Got((), 7) && DecodeResource(WRAPPING, 12) == Failed(ResourceLen)
  {
    assert Walk(WRAPPING, 12, 0, 12, true) == Done([], 13);
    assert At16(WRAPPING, 21) == 0xfff0;
  }

  /** Wherever a good record is found in the message, it decodes to itself and is skipped to the same offset. */
  ghost predicate Codes<T(!new)>(msg: seq<byte>, good: T -> bool, bytes: T -> seq<byte>,
                                 decode: u16 -> Step<T>, skip: u16 -> Step<()>) {
    && |msg| <= 0xffff
    && forall x: T, o: u16 :: good(x) && HasAt(msg, o, bytes(x)) ==>
         decode(o) == Got(x, o + |bytes(x)|) && skip(o) == Got((), o + |bytes(x)|)
  }

  ghost predicate AllGood<T>(good: T -> bool, xs: seq<T>) {
    forall i :: 0 <= i < |xs| ==> good(xs[i])
  }

  lemma {:induction false} OneAt<T(!new)>(msg: seq<byte>, good: T -> bool, bytes: T -> seq<byte>,
                                    decode: u16 -> Step<T>, skip: u16 -> Step<()>, off: nat, x: T)
    requires Codes(msg, good, bytes, decode, skip) && good(x) && HasAt(msg, off, bytes(x))
    ensures var next := off + |bytes(x)|;
            decode(off) == Got(x, next) && skip(off) == Got((), next)
  {
  }

  lemma {:induction false} ManyAt<T(!new)>(msg: seq<byte>, good: T -> bool, bytes: T -> seq<byte>,
                                     decode: u16 -> Step<T>, skip: u16 -> Step<()>, off: nat, xs: seq<T>)
    requires Codes(msg, good, bytes, decode, skip) && AllGood(good, xs) && HasAt(msg, off, SectionBytes(bytes, xs))
    ensures var next := off + |SectionBytes(bytes, xs)|;
            DecodeMany(decode, off, |xs|) == Got(xs, next) && SkipMany(skip, off, |xs|) == Got((), next)
    decreases |xs|
  {
    if xs != [] {
      HasAtSplit(msg, off, bytes(xs[0]), SectionBytes(bytes, xs[1..]));
      var next := off + |bytes(xs[0])|;
      OneAt(msg, good, bytes, decode, skip, off, xs[0]);
      assert AllGood(good, xs[1..]);
      ManyAt(msg, good, bytes, decode, skip, next, xs[1..]);
      assert [xs[0]] + xs[1..] == xs;
    }
  }

  lemma {:induction false} SectionBytesConcat<T>(bytes: T -> seq<byte>, a: seq<T>, b: seq<T>)
    ensures SectionBytes(bytes, a + b) == SectionBytes(bytes, a) + SectionBytes(bytes, b)
  {
    if a == [] {
      assert a + b == b;
    } else {
      assert (a + b)[1..] == a[1..] + b;
      SectionBytesConcat(bytes, a[1..], b);
    }
  }

  /** A section is cut to its capacity, and the next one is found whatever the capacity. */
  lemma {:induction false} SectionAt<T(!new)>(msg: seq<byte>, good: T -> bool, bytes: T -> seq<byte>,
                                        decode: u16 -> Step<T>, skip: u16 -> Step<()>, off: nat, xs: seq<T>, cap: u16)
    requires Codes(msg, good, bytes, decode, skip) && AllGood(good, xs) && HasAt(msg, off, SectionBytes(bytes, xs))
    requires |xs| <= 0xffff
    ensures Section(decode, skip, off, |xs|, cap) == Got(xs[..Limit(|xs|, cap)], off + |SectionBytes(bytes, xs)|)
  {
    var k := Limit(|xs|, cap);
    var head, tail := xs[..k], xs[k..];
    assert xs == head + tail;
    SectionBytesConcat(bytes, head, tail);
    HasAtSplit(msg, off, SectionBytes(bytes, head), SectionBytes(bytes, tail));
    ManyAt(msg, good, bytes, decode, skip, off, head);
    ManyAt(msg, good, bytes, decode, skip, off + |SectionBytes(bytes, head)|, tail);
  }

  lemma {:induction false} QuestionsCode(msg: seq<byte>)
    requires |msg| <= 0xffff
    ensures Codes(msg, GoodQuestion, QuestionBytes, StepsOf(msg).question, StepsOf(msg).skipQuestion)
  {
    forall q: Question, o: u16 | GoodQuestion(q) && HasAt(msg, o, QuestionBytes(q))
      ensures StepsOf(msg).question(o) == Got(q, o + |QuestionBytes(q)|)
      ensures StepsOf(msg).skipQuestion(o) == Got((), o + |QuestionBytes(q)|)
    {
      QuestionAt(msg, o, q);
    }
  }

  lemma {:induction false} ResourcesCode(msg: seq<byte>)
    requires |msg| <= 0xffff
    ensures Codes(msg, GoodResource, ResourceBytes, StepsOf(msg).resource, StepsOf(msg).skipResource)
  {
    forall r: Resource, o: u16 | GoodResource(r) && HasAt(msg, o, ResourceBytes(r))
      ensures CodesAt(StepsOf(msg), r, o)
    {
      ResourceCode(msg, r, o);
    }
    CodesByRecord(msg, StepsOf(msg));
  }

  predicate CodesAt(s: Steps, r: Resource, o: u16) {
    && o + |ResourceBytes(r)| <= 0xffff
    && s.resource(o) == Got(r, o + |ResourceBytes(r)|) && s.skipResource(o) == Got((), o + |ResourceBytes(r)|)
  }

  lemma {:induction false} CodesByRecord(msg: seq<byte>, s: Steps)
    requires |msg| <= 0xffff
    requires forall r: Resource, o: u16 :: GoodResource(r) && HasAt(msg, o, ResourceBytes(r)) ==> CodesAt(s, r, o)
    ensures Codes(msg, GoodResource, ResourceBytes, s.resource, s.skipResource)
  {
  }

  lemma {:induction false} ResourceCode(msg: seq<byte>, r: Resource, o: u16)
    requires |msg| <= 0xffff && GoodResource(r) && HasAt(msg, o, ResourceBytes(r))
    ensures CodesAt(StepsOf(msg), r, o)
  {
    ResourceAt(msg, o, r);
  }

  lemma {:induction false} HeaderAt(msg: seq<byte>, h: Header)
    requires HasAt(msg, 0, HeaderBytes(h))
    ensures DecodeHeader(msg) == h
  {
    var a, b, c, d, e, f := Bytes16(h.id), Bytes16(h.flags), Bytes16(h.qd), Bytes16(h.an), Bytes16(h.ns), Bytes16(h.ar);
    HasAtSplit(msg, 0, a + b + c + d + e, f);
    HasAtSplit(msg, 0, a + b + c + d, e);
    HasAtSplit(msg, 0, a + b + c, d);
    HasAtSplit(msg, 0, a + b, c);
    HasAtSplit(msg, 0, a, b);
    At16Of(msg, 0, h.id);
    At16Of(msg, 2, h.flags);
    At16Of(msg, 4, h.qd);
    At16Of(msg, 6, h.an);
    At16Of(msg, 8, h.ns);
    At16Of(msg, 10, h.ar);
  }

  /** Every record takes at least a byte, so that a message that fits has counts that fit. */
  lemma {:induction false} CountFits<T>(bytes: T -> seq<byte>, xs: seq<T>)
    requires forall i :: 0 <= i < |xs| ==> bytes(xs[i]) != []
    ensures |xs| <= |SectionBytes(bytes, xs)|
  {
    if xs != [] {
      CountFits(bytes, xs[1..]);
    }
  }

  /** The message with each section cut to its capacity. */
  function Cut(m: Message, caps: Caps): Message
    requires |m.questions| <= 0xffff && |m.answers| <= 0xffff && |m.authorities| <= 0xffff && |m.additionals| <= 0xffff
  {
    Message(m.header, m.questions[..Limit(|m.questions|, caps.questions)],
            m.answers[..Limit(|m.answers|, caps.answers)],
            m.authorities[..Limit(|m.authorities|, caps.authorities)],
            m.additionals[..Limit(|m.additionals|, caps.additionals)])
  }

  lemma {:induction false} CountsFit(m: Message)
    requires |MessageBytes(m)| <= 0xffff
    ensures |m.questions| <= 0xffff && |m.answers| <= 0xffff && |m.authorities| <= 0xffff && |m.additionals| <= 0xffff
  {
    CountFits(QuestionBytes, m.questions);
    CountFits(ResourceBytes, m.answers);
    CountFits(ResourceBytes, m.authorities);
    CountFits(ResourceBytes, m.additionals);
  }

  /** Printing a message of well-formed names that fits and parsing it again, with whatever capacities, gives
      the message with each section cut to its capacity, consumes exactly what was printed, and reports it
      incomplete exactly when some section was cut. */
  lemma {:induction false} MessageRoundTrip(m: Message, caps: Caps)
    requires GoodMessage(m)
    ensures AppendTo(m) == Printed(MessageBytes(m))
    ensures |m.questions| <= 0xffff && |m.answers| <= 0xffff && |m.authorities| <= 0xffff && |m.additionals| <= 0xffff
    ensures Decode(MessageBytes(m), caps) == Decoded(Cut(m, caps), |MessageBytes(m)|, Cut(m, caps) != m)
  {
    CountsFit(m);
    NamedGood(m);
    CutIsIncomplete(m, caps);
    Layout(m);
    HeaderAt(MessageBytes(m), m.header);
    CodesBack(m, caps);
  }

  lemma {:induction false} CodesBack(m: Message, caps: Caps)
    requires GoodMessage(m)
    requires |m.questions| <= 0xffff && |m.answers| <= 0xffff && |m.authorities| <= 0xffff && |m.additionals| <= 0xffff
    ensures Sections(StepsOf(MessageBytes(m)), m.header, caps)
            == Decoded(Cut(m, caps), |MessageBytes(m)|, TooMany(m.header, caps))
  {
    var msg := MessageBytes(m);
    var o1 := SIZE_HEADER + |QuestionsBytes(m.questions)|;
    var o2 := o1 + |ResourcesBytes(m.answers)|;
    Layout(m);
    CountsStated(m);
    QuestionsCode(msg);
    ResourcesCode(msg);
    SectionsAt(msg, m, caps, StepsOf(msg), o1, o2, o2 + |ResourcesBytes(m.authorities)|);
  }

  /** Where the header and the sections lie. */
  lemma {:induction false} Layout(m: Message)
    requires m.header == Counted(m)
    ensures var msg := MessageBytes(m);
            var o1 := SIZE_HEADER + |QuestionsBytes(m.questions)|;
            var o2 := o1 + |ResourcesBytes(m.answers)|;
            var o3 := o2 + |ResourcesBytes(m.authorities)|;
            && HasAt(msg, 0, HeaderBytes(m.header)) && HasAt(msg, SIZE_HEADER, QuestionsBytes(m.questions))
            && HasAt(msg, o1, ResourcesBytes(m.answers)) && HasAt(msg, o2, ResourcesBytes(m.authorities))
            && HasAt(msg, o3, ResourcesBytes(m.additionals))
            && |msg| == o3 + |ResourcesBytes(m.additionals)|
  {
    var msg := MessageBytes(m);
    var h, q := HeaderBytes(m.header), QuestionsBytes(m.questions);
    var a, n, d := ResourcesBytes(m.answers), ResourcesBytes(m.authorities), ResourcesBytes(m.additionals);
    assert HasAt(msg, 0, msg);
    HasAtSplit(msg, 0, h, q + (a + (n + d)));
    HasAtSplit(msg, SIZE_HEADER, q, a + (n + d));
    HasAtSplit(msg, SIZE_HEADER + |q|, a, n + d);
    HasAtSplit(msg, SIZE_HEADER + |q| + |a|, n, d);
  }

  lemma {:induction false} CountsStated(m: Message)
    requires m.header == Counted(m)
    requires |m.questions| <= 0xffff && |m.answers| <= 0xffff && |m.authorities| <= 0xffff && |m.additionals| <= 0xffff
    ensures m.header.qd == |m.questions| && m.header.an == |m.answers|
    ensures m.header.ns == |m.authorities| && m.header.ar == |m.additionals|
  {
  }

  lemma {:induction false} SectionsEval(s: Steps, c: Message, caps: Caps, o1: u16, o2: u16, o3: u16, o4: u16)
    requires Section(s.question, s.skipQuestion, SIZE_HEADER, c.header.qd, caps.questions) == Got(c.questions, o1)
    requires Section(s.resource, s.skipResource, o1, c.header.an, caps.answers) == Got(c.answers, o2)
    requires Section(s.resource, s.skipResource, o2, c.header.ns, caps.authorities) == Got(c.authorities, o3)
    requires Section(s.resource, s.skipResource, o3, c.header.ar, caps.additionals) == Got(c.additionals, o4)
    ensures Sections(s, c.header, caps) == Decoded(c, o4, TooMany(c.header, caps))
  {
  }

  lemma {:induction false} QuestionSectionAt(msg: seq<byte>, s: Steps, off: nat, qs: seq<Question>, cap: u16)
    requires GoodQuestions(qs) && |qs| <= 0xffff && HasAt(msg, off, QuestionsBytes(qs))
    requires Codes(msg, GoodQuestion, QuestionBytes, s.question, s.skipQuestion)
    ensures Section(s.question, s.skipQuestion, off, |qs|, cap)
            == Got(qs[..Limit(|qs|, cap)], off + |QuestionsBytes(qs)|)
  {
    SectionAt(msg, GoodQuestion, QuestionBytes, s.question, s.skipQuestion, off, qs, cap);
  }

  lemma {:induction false} ResourceSectionAt(msg: seq<byte>, s: Steps, off: nat, rs: seq<Resource>, cap: u16)
    requires GoodResources(rs) && |rs| <= 0xffff && HasAt(msg, off, ResourcesBytes(rs))
    requires Codes(msg, GoodResource, ResourceBytes, s.resource, s.skipResource)
    ensures Section(s.resource, s.skipResource, off, |rs|, cap)
            == Got(rs[..Limit(|rs|, cap)], off + |ResourcesBytes(rs)|)
  {
    SectionAt(msg, GoodResource, ResourceBytes, s.resource, s.skipResource, off, rs, cap);
  }

  /** With steps that decode and skip what was printed, the sections come back cut to their capacities. */
  lemma {:induction false} SectionsAt(msg: seq<byte>, m: Message, caps: Caps, s: Steps, o1: nat, o2: nat, o3: nat)
    requires GoodQuestions(m.questions) && GoodResources(m.answers)
    requires GoodResources(m.authorities) && GoodResources(m.additionals)
    requires |m.questions| <= 0xffff && |m.answers| <= 0xffff && |m.authorities| <= 0xffff && |m.additionals| <= 0xffff
    requires m.header.qd == |m.questions| && m.header.an == |m.answers|
    requires m.header.ns == |m.authorities| && m.header.ar == |m.additionals|
    requires Codes(msg, GoodQuestion, QuestionBytes, s.question, s.skipQuestion)
    requires Codes(msg, GoodResource, ResourceBytes, s.resource, s.skipResource)
    requires HasAt(msg, SIZE_HEADER, QuestionsBytes(m.questions)) && o1 == SIZE_HEADER + |QuestionsBytes(m.questions)|
    requires HasAt(msg, o1, ResourcesBytes(m.answers)) && o2 == o1 + |ResourcesBytes(m.answers)|
    requires HasAt(msg, o2, ResourcesBytes(m.authorities)) && o3 == o2 + |ResourcesBytes(m.authorities)|
    requires HasAt(msg, o3, ResourcesBytes(m.additionals)) && |msg| == o3 + |ResourcesBytes(m.additionals)|
    ensures Sections(s, m.header, caps) == Decoded(Cut(m, caps), |msg|, TooMany(m.header, caps))
  {
    QuestionSectionAt(msg, s, SIZE_HEADER, m.questions, caps.questions);
    ResourceSectionAt(msg, s, o1, m.answers, caps.answers);
    ResourceSectionAt(msg, s, o2, m.authorities, caps.authorities);
    ResourceSectionAt(msg, s, o3, m.additionals, caps.additionals);
    SectionsEval(s, Cut(m, caps), caps, o1, o2, o3, |msg|);
  }

  lemma {:induction false} NamedGood(m: Message)
    requires GoodMessage(m)
    ensures Named(m)
  {
  }

  lemma {:induction false} CutIsIncomplete(m: Message, caps: Caps)
    requires |m.questions| <= 0xffff && |m.answers| <= 0xffff && |m.authorities| <= 0xffff && |m.additionals| <= 0xffff
    requires m.header == Counted(m)
    ensures TooMany(m.header, caps) <==> Cut(m, caps) != m
  {
    var c := Cut(m, caps);
    assert c.questions == m.questions <==> |c.questions| == |m.questions|;
    assert c.answers == m.answers <==> |c.answers| == |m.answers|;
    assert c.authorities == m.authorities <==> |c.authorities| == |m.authorities|;
    assert c.additionals == m.additionals <==> |c.additionals| == |m.additionals|;
  }
}
