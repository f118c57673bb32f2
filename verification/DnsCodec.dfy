/** The DNS message printer and parser as the loops they are (eth/dns/types.go), proved against the functions of
    module DnsMessages. */
module DnsCodec {
  import opened Rings
  import opened Checksum
  import opened DnsNames
  import opened DnsMessages

  /** What decoding m more records comes to after xs have been decoded. */
  ghost function Onto<T>(xs: seq<T>, r: Step<seq<T>>): Step<seq<T>> {
    match r
    case Got(ys, off) => Got(xs + ys, off)
    case Failed(err) => Failed(err)
    case Crashed => Crashed
  }

  lemma OntoNothing<T>(r: Step<seq<T>>, xs: seq<T>)
    ensures Onto([], r) == r && xs + [] == xs
  {
    if r.Got? {
      assert [] + r.value == r.value;
    }
  }

  lemma {:induction false} OntoStep<T>(step: u16 -> Step<T>, xs: seq<T>, off: u16, n: nat)
    requires n > 0
    ensures match step(off)
            case Got(x, o) => Onto(xs, DecodeMany(step, off, n)) == Onto(xs + [x], DecodeMany(step, o, n - 1))
            case Failed(err) => DecodeMany(step, off, n) == Failed(err)
            case Crashed => DecodeMany(step, off, n) == Crashed
  {
    var r := step(off);
    if r.Got? {
      var rest := DecodeMany(step, r.off, n - 1);
      if rest.Got? {
        assert xs + ([r.value] + rest.value) == xs + [r.value] + rest.value;
      }
    }
  }

  /** Decodes as many records as there is room for and skips the others. */
  method DecodeToCap<T>(step: u16 -> Step<T>, skip: u16 -> Step<()>, start: u16, count: u16, cap: u16)
    returns (r: Step<seq<T>>)
    ensures r == Section(step, skip, start, count, cap)
  {
    var n := Limit(count, cap);
    var xs: seq<T>, off: u16 := [], start;
    OntoNothing(DecodeMany(step, start, n), xs);
    for i := 0 to n
      invariant DecodeMany(step, start, n) == Onto(xs, DecodeMany(step, off, n - i))
    {
      OntoStep(step, xs, off, n - i);
      match step(off) {
        case Failed(err) =>
          return Failed(err);
        case Crashed =>
          return Crashed;
        case Got(x, o) =>
          xs, off := xs + [x], o;
      }
    }
    OntoNothing(Got([], off), xs);
    ghost var from := off;
    for i := 0 to count - n
      invariant SkipMany(skip, from, count - n) == SkipMany(skip, off, count - n - i)
    {
      match skip(off) {
        case Failed(err) =>
          return Failed(err);
        case Crashed =>
          return Crashed;
        case Got(_, o) =>
          off := o;
      }
    }
    return Got(xs, off);
  }

  method DecodeMessage(msg: seq<byte>, caps: Caps) returns (r: Decoded)
    ensures r == Decode(msg, caps)
  {
    if |msg| < SIZE_HEADER {
      return DecodeFailed(BaseLen);
    } else if |msg| > 0xffff {
      return DecodeFailed(ResTooLong);
    }
    var h := DecodeHeader(msg);
    var s := StepsOf(msg);
    r := DecodeSections(s, h, caps);
  }

  method DecodeSections(s: Steps, h: Header, caps: Caps) returns (r: Decoded)
    ensures r == Sections(s, h, caps)
  {
    var tooMany := h.qd > caps.questions || h.an > caps.answers || h.ns > caps.authorities || h.ar > caps.additionals;
    var qs := DecodeToCap(s.question, s.skipQuestion, SIZE_HEADER, h.qd, caps.questions);
    if !qs.Got? {
      return if qs.Failed? then DecodeFailed(qs.err) else DecodePanic;
    }
    var ans := DecodeToCap(s.resource, s.skipResource, qs.off, h.an, caps.answers);
    if !ans.Got? {
      return if ans.Failed? then DecodeFailed(ans.err) else DecodePanic;
    }
    var auths := DecodeToCap(s.resource, s.skipResource, ans.off, h.ns, caps.authorities);
    if !auths.Got? {
      return if auths.Failed? then DecodeFailed(auths.err) else DecodePanic;
    }
    var adds := DecodeToCap(s.resource, s.skipResource, auths.off, h.ar, caps.additionals);
    if !adds.Got? {
      return if adds.Failed? then DecodeFailed(adds.err) else DecodePanic;
    }
    return Decoded(Message(h, qs.value, ans.value, auths.value, adds.value), adds.off, tooMany);
  }

  lemma {:induction false} SectionBytesSnoc<T>(bytes: T -> seq<byte>, xs: seq<T>, i: nat)
    requires i < |xs|
    ensures SectionBytes(bytes, xs[..i + 1]) == SectionBytes(bytes, xs[..i]) + bytes(xs[i])
  {
    assert xs[..i + 1] == xs[..i] + [xs[i]];
    SectionBytesConcat(bytes, xs[..i], [xs[i]]);
    assert [xs[i]][1..] == [];
  }

  /** Appends the records of a section; one without a name stops it. */
  method AppendSection<T>(buf: seq<byte>, bytes: T -> seq<byte>, named: T -> bool, xs: seq<T>)
    returns (out: seq<byte>, ok: bool)
    ensures ok <==> forall i :: 0 <= i < |xs| ==> named(xs[i])
    ensures ok ==> out == buf + SectionBytes(bytes, xs)
  {
    out := buf;
    for i := 0 to |xs|
      invariant forall j :: 0 <= j < i ==> named(xs[j])
      invariant out == buf + SectionBytes(bytes, xs[..i])
    {
      if !named(xs[i]) {
        return out, false;
      }
      SectionBytesSnoc(bytes, xs, i);
      out := out + bytes(xs[i]);
    }
    assert xs[..|xs|] == xs;
    ok := true;
  }

  lemma LenAdds(a: nat, b: nat)
    ensures Add16(a % 0x1_0000, b % 0x1_0000) == (a + b) % 0x1_0000
  {
  }

  /** The length of a section, accumulated in 16 bits. */
  method SectionLen<T>(start: u16, bytes: T -> seq<byte>, xs: seq<T>) returns (l: u16)
    ensures l == (start + |SectionBytes(bytes, xs)|) % 0x1_0000
  {
    l := start;
    for i := 0 to |xs|
      invariant l == (start + |SectionBytes(bytes, xs[..i])|) % 0x1_0000
    {
      SectionBytesSnoc(bytes, xs, i);
      LenAdds(start + |SectionBytes(bytes, xs[..i])|, |bytes(xs[i])|);
      l := Add16(l, |bytes(xs[i])| % 0x1_0000);
    }
    assert xs[..|xs|] == xs;
  }

  /** Len is the length of what is printed, in 16 bits. */
  method MessageLen(m: Message) returns (l: u16)
    ensures l == |MessageBytes(m)| % 0x1_0000
  {
    var q := SectionLen(SIZE_HEADER, QuestionBytes, m.questions);
    var a := SectionLen(q, ResourceBytes, m.answers);
    var n := SectionLen(a, ResourceBytes, m.authorities);
    l := SectionLen(n, ResourceBytes, m.additionals);
    LenChain(SIZE_HEADER + |QuestionsBytes(m.questions)|, |ResourcesBytes(m.answers)|,
             |ResourcesBytes(m.authorities)|, |ResourcesBytes(m.additionals)|);
  }

  lemma LenChain(a: nat, b: nat, c: nat, d: nat)
    ensures (((a % 0x1_0000 + b) % 0x1_0000 + c) % 0x1_0000 + d) % 0x1_0000 == (a + b + c + d) % 0x1_0000
  {
    ModAdds(a, b);
    ModAdds(a + b, c);
    ModAdds(a + b + c, d);
  }

  lemma ModAdds(a: nat, b: nat)
    ensures (a % 0x1_0000 + b) % 0x1_0000 == (a + b) % 0x1_0000
  {
  }

  method AppendMessage(m: Message) returns (r: Printed)
    ensures r == AppendTo(m)
  {
    var buf := HeaderBytes(Counted(m));
    var b1, ok1 := AppendSection(buf, QuestionBytes, (q: Question) => q.name != [], m.questions);
    if !ok1 {
      return Nameless;
    }
    var b2, ok2 := AppendSection(b1, ResourceBytes, (r: Resource) => r.name != [], m.answers);
    if !ok2 {
      return Nameless;
    }
    var b3, ok3 := AppendSection(b2, ResourceBytes, (r: Resource) => r.name != [], m.authorities);
    if !ok3 {
      return Nameless;
    }
    var b4, ok4 := AppendSection(b3, ResourceBytes, (r: Resource) => r.name != [], m.additionals);
    if !ok4 {
      return Nameless;
    }
    Grouped(buf, QuestionsBytes(m.questions), ResourcesBytes(m.answers), ResourcesBytes(m.authorities),
            ResourcesBytes(m.additionals));
    return Printed(b4);
  }

  lemma Grouped(a: seq<byte>, b: seq<byte>, c: seq<byte>, d: seq<byte>, e: seq<byte>)
    ensures a + b + c + d + e == a + (b + (c + (d + e)))
  {
  }
}
