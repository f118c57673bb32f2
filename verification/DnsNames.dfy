/** DNS names: the label walker that follows compression pointers, names in wire format and their dotted
    form (eth/dns/dns.go, eth/dns/types.go; section 4.1.4 of RFC 1035). */
module DnsNames {
  import opened Rings
  import opened Checksum

  const DOT: byte := 46
  const MAX_POINTERS: nat := 10

  datatype DnsErr =
    | ResTooLong
    | BaseLen
    | CalcLen
    | InvalidName
    | CompressedSRV
    | InvalidPtr
    | TooManyPtr
    | Reserved
    | ResourceLen

  /** A walk hands over labels; it ends with the offset where the next record starts, stops with an error, or
      panics on a slice whose end has wrapped around. */
  datatype Walked =
    | Done(labels: seq<seq<byte>>, end: u16)
    | Stopped(labels: seq<seq<byte>>, err: DnsErr)
    | Panicked
  {
    function Prepend(l: seq<byte>): Walked {
      match this
      case Done(labels, end) => Done([l] + labels, end)
      case Stopped(labels, err) => Stopped([l] + labels, err)
      case Panicked => Panicked
    }
  }

  /** The offset in the low 14 bits of a pointer. */
  function Pointer(c: byte, c1: byte): u16
    requires c >= 192
  {
    Word(c - 192, c1)
  }

  /** The walk from offset cur, ptr pointers having been followed; newOff is where the next record starts if
      there have been any. Each step follows one more pointer or moves on in the message. */
  function Walk(msg: seq<byte>, cur: u16, ptr: nat, newOff: u16, allowCompression: bool): Walked
    requires |msg| < 0x1_0000 && ptr <= MAX_POINTERS
    decreases MAX_POINTERS - ptr, |msg| - cur
  {
    if cur >= |msg| then Stopped([], BaseLen)
    else
      var c := msg[cur];
      if c == 0 then Done([], if ptr == 0 then cur + 1 else newOff)
      else if c < 64 then
        var start, end := cur + 1, Add16(cur + 1, c);
        if end > |msg| then Stopped([], CalcLen)
        else if end < start then Panicked
        else if DOT in msg[start..end] then Stopped([], InvalidName)
        else Walk(msg, end, ptr, newOff, allowCompression).Prepend(msg[start..end])
      else if c >= 192 then
        if !allowCompression then Stopped([], CompressedSRV)
        else if cur + 1 >= |msg| then Stopped([], InvalidPtr)
        else if ptr + 1 > MAX_POINTERS then Stopped([], TooManyPtr)
        else Walk(msg, Pointer(c, msg[cur + 1]), ptr + 1, if ptr == 0 then cur + 2 else newOff, allowCompression)
      else Stopped([], Reserved)
  }

  function VisitAllLabels(msg: seq<byte>, off: u16, allowCompression: bool): Walked {
    if |msg| > 0xffff then Stopped([], ResTooLong) else Walk(msg, off, 0, off, allowCompression)
  }

  /** The walk as the loop it is. */
  method VisitLoop(msg: seq<byte>, off: u16, allowCompression: bool) returns (r: Walked)
    ensures r == VisitAllLabels(msg, off, allowCompression)
  {
    var curr: u16 := off;
    if |msg| > 0xffff {
      return Stopped([], ResTooLong);
    }
    var ptr := 0;
    var newOff: u16 := off;
    var labels: seq<seq<byte>> := [];
    while true
      invariant ptr <= MAX_POINTERS
      invariant VisitAllLabels(msg, off, allowCompression)
                == After(labels, Walk(msg, curr, ptr, newOff, allowCompression))
      decreases MAX_POINTERS - ptr, |msg| - curr
    {
      AfterNone(labels);
      if curr >= |msg| {
        return Stopped(labels, BaseLen);
      }
      var c := msg[curr];
      curr := curr + 1;
      if c == 0 {
        break;
      } else if c < 64 {
        var endOff := Add16(curr, c);
        if endOff > |msg| {
          return Stopped(labels, CalcLen);
        } else if endOff < curr {
          return Panicked;
        } else if DOT in msg[curr..endOff] {
          return Stopped(labels, InvalidName);
        }
        AfterOne(labels, msg[curr..endOff], Walk(msg, endOff, ptr, newOff, allowCompression));
        labels := labels + [msg[curr..endOff]];
        curr := endOff;
      } else if c >= 192 {
        if !allowCompression {
          return Stopped(labels, CompressedSRV);
        }
        if curr >= |msg| {
          return Stopped(labels, InvalidPtr);
        }
        var c1 := msg[curr];
        curr := curr + 1;
        if ptr == 0 {
          newOff := curr;
        }
        ptr := ptr + 1;
        if ptr > MAX_POINTERS {
          return Stopped(labels, TooManyPtr);
        }
        curr := Pointer(c, c1);
      } else {
        return Stopped(labels, Reserved);
      }
    }
    if ptr == 0 {
      newOff := curr;
    }
    return Done(labels, newOff);
  }

  /** A walk that continues after some labels. */
  ghost function After(labels: seq<seq<byte>>, r: Walked): Walked {
    match r
    case Done(ls, end) => Done(labels + ls, end)
    case Stopped(ls, err) => Stopped(labels + ls, err)
    case Panicked => Panicked
  }

  lemma AfterNone(labels: seq<seq<byte>>)
    ensures forall end: u16 :: After(labels, Done([], end)) == Done(labels, end)
    ensures forall err: DnsErr :: After(labels, Stopped([], err)) == Stopped(labels, err)
  {
    assert labels + [] == labels;
  }

  lemma AfterOne(labels: seq<seq<byte>>, l: seq<byte>, r: Walked)
    ensures After(labels, r.Prepend(l)) == After(labels + [l], r)
  {
    match r {
      case Done(ls, end) => assert labels + ([l] + ls) == labels + [l] + ls;
      case Stopped(ls, err) => assert labels + ([l] + ls) == labels + [l] + ls;
      case Panicked =>
    }
  }

  // ---------------------------------------------------------------------------------------------
  // Names in wire format

  predicate GoodLabel(l: seq<byte>) {
    1 <= |l| <= 63 && DOT !in l
  }

  predicate GoodLabels(ls: seq<seq<byte>>) {
    forall i :: 0 <= i < |ls| ==> GoodLabel(ls[i])
  }

  /** Labels in wire format, without the terminator. */
  function Body(ls: seq<seq<byte>>): (b: seq<byte>)
    requires GoodLabels(ls)
  {
    if ls == [] then [] else [|ls[0]|] + ls[0] + Body(ls[1..])
  }

  function Encode(ls: seq<seq<byte>>): (b: seq<byte>)
    requires GoodLabels(ls)
    ensures |b| > 0
  {
    Body(ls) + [0]
  }

  /** Walking over an encoded name anywhere in a message gives its labels and the offset just past it. */
  lemma {:induction false} WalkEncoded(pre: seq<byte>, ls: seq<seq<byte>>, post: seq<byte>, allow: bool)
    requires GoodLabels(ls) && |pre + Encode(ls) + post| <= 0xffff
    ensures Walk(pre + Encode(ls) + post, |pre|, 0, |pre|, allow) == Done(ls, |pre| + |Encode(ls)|)
  {
    WalkEncodedFrom(pre, ls, post, |pre|, allow);
  }

  /** One label in place is one step of the walk. */
  lemma {:induction false} WalkLabel(msg: seq<byte>, cur: u16, l: seq<byte>, newOff: u16, allow: bool)
    requires |msg| <= 0xffff && GoodLabel(l) && cur + 1 + |l| <= |msg|
    requires msg[cur] == |l| && msg[cur + 1..cur + 1 + |l|] == l
    ensures Walk(msg, cur, 0, newOff, allow) == Walk(msg, cur + 1 + |l|, 0, newOff, allow).Prepend(l)
  {
  }

  lemma {:induction false} WalkEnd(msg: seq<byte>, cur: u16, newOff: u16, allow: bool)
    requires |msg| <= 0xffff && cur < |msg| && msg[cur] == 0
    ensures Walk(msg, cur, 0, newOff, allow) == Done([], cur + 1)
  {
  }

  /** Where the first label of an encoded name lies, and what is left. */
  lemma {:induction false} FirstLabel(pre: seq<byte>, ls: seq<seq<byte>>, post: seq<byte>)
    requires GoodLabels(ls) && ls != []
    ensures var l, msg := ls[0], pre + Encode(ls) + post;
            && |pre| + 1 + |l| <= |msg| && msg[|pre|] == |l| && msg[|pre| + 1..|pre| + 1 + |l|] == l
            && msg == (pre + [|l|] + l) + Encode(ls[1..]) + post && |Encode(ls)| == 1 + |l| + |Encode(ls[1..])|
  {
    var l, rest := ls[0], ls[1..];
    assert Encode(ls) == [|l|] + l + Encode(rest);
    var msg := pre + Encode(ls) + post;
    assert msg == pre + [|l|] + l + (Encode(rest) + post);
  }

  lemma {:induction false} WalkEncodedFrom(pre: seq<byte>, ls: seq<seq<byte>>, post: seq<byte>, newOff: u16,
                                           allow: bool)
    requires GoodLabels(ls) && |pre + Encode(ls) + post| <= 0xffff
    ensures Walk(pre + Encode(ls) + post, |pre|, 0, newOff, allow) == Done(ls, |pre| + |Encode(ls)|)
    decreases |ls|
  {
    var msg := pre + Encode(ls) + post;
    if ls == [] {
      WalkEnd(msg, |pre|, newOff, allow);
    } else {
      FirstLabel(pre, ls, post);
      WalkLabel(msg, |pre|, ls[0], newOff, allow);
      var pre' := pre + [|ls[0]|] + ls[0];
      WalkEncodedFrom(pre', ls[1..], post, newOff, allow);
      assert Walk(msg, |pre'|, 0, newOff, allow) == Done(ls[1..], |pre'| + |Encode(ls[1..])|);
      assert [ls[0]] + ls[1..] == ls;
    }
  }

  /** Where the name at cur ends in place: just past its terminator, or past its first pointer. */
  function PlaceEnd(msg: seq<byte>, cur: nat): nat
    decreases |msg| - cur
  {
    if cur >= |msg| then cur
    else if msg[cur] == 0 then cur + 1
    else if msg[cur] < 64 then PlaceEnd(msg, cur + 1 + msg[cur])
    else cur + 2
  }

  /** A successful walk has handed over well-formed labels only, and the next record starts inside the
      message, just past the name in place. */
  lemma {:induction false} WalkSound(msg: seq<byte>, cur: u16, ptr: nat, newOff: u16, allow: bool)
    requires |msg| <= 0xffff && ptr <= MAX_POINTERS
    requires Walk(msg, cur, ptr, newOff, allow).Done?
    ensures var r := Walk(msg, cur, ptr, newOff, allow);
            && GoodLabels(r.labels)
            && (if ptr > 0 then r.end == newOff else cur < r.end == PlaceEnd(msg, cur) <= |msg|)
    decreases MAX_POINTERS - ptr, |msg| - cur
  {
    var c := msg[cur];
    if 0 < c < 64 {
      WalkSound(msg, cur + 1 + c, ptr, newOff, allow);
    } else if c >= 192 {
      WalkSound(msg, Pointer(c, msg[cur + 1]), ptr + 1, if ptr == 0 then cur + 2 else newOff, allow);
    }
  }

  /** Decoding a name: its labels, re-encoded without pointers. */
  datatype NameResult = Name(data: seq<byte>, off: u16) | NameError(err: DnsErr) | NamePanic

  function DecodeName(msg: seq<byte>, off: u16): NameResult {
    match VisitAllLabels(msg, off, true)
    case Done(labels, end) => Name(Raw(labels) + [0], end)
    case Stopped(_, err) => NameError(err)
    case Panicked => NamePanic
  }

  /** What visiting labels appends to a name; the length is truncated to a byte. */
  function Raw(ls: seq<seq<byte>>): seq<byte> {
    if ls == [] then [] else [|ls[0]| % 256] + ls[0] + Raw(ls[1..])
  }

  lemma {:induction false} RawIsBody(ls: seq<seq<byte>>)
    requires GoodLabels(ls)
    ensures Raw(ls) == Body(ls)
  {
    if ls != [] {
      RawIsBody(ls[1..]);
    }
  }

  /** Decoding a name, compressed or not, and encoding it again into another message: decoding that gives the
      same name, just past which the next record starts. */
  lemma {:induction false} ReencodedNameDecodes(msg: seq<byte>, off: u16, pre: seq<byte>, post: seq<byte>)
    requires DecodeName(msg, off).Name?
    requires |pre + DecodeName(msg, off).data + post| <= 0xffff
    ensures var data := DecodeName(msg, off).data;
            DecodeName(pre + data + post, |pre|) == Name(data, |pre| + |data|)
  {
    var w := VisitAllLabels(msg, off, true);
    WalkSound(msg, off, 0, off, true);
    RawIsBody(w.labels);
    WalkEncoded(pre, w.labels, post, true);
  }

  /** The walk can only panic in messages longer than 65535 - 63 bytes, and in every longer one it can. */
  lemma {:induction false} ShortNeverPanics(msg: seq<byte>, cur: u16, ptr: nat, newOff: u16, allow: bool)
    requires |msg| <= 0xffff - 63 && ptr <= MAX_POINTERS
    ensures !Walk(msg, cur, ptr, newOff, allow).Panicked?
    decreases MAX_POINTERS - ptr, |msg| - cur
  {
    if cur < |msg| {
      var c := msg[cur];
      if 0 < c < 64 {
        if cur + 1 + c <= |msg| {
          ShortNeverPanics(msg, cur + 1 + c, ptr, newOff, allow);
        }
      } else if c >= 192 && cur + 1 < |msg| && ptr < MAX_POINTERS {
        ShortNeverPanics(msg, Pointer(c, msg[cur + 1]), ptr + 1, if ptr == 0 then cur + 2 else newOff, allow);
      }
    }
  }

  lemma {:induction false} LongMayPanic(msg: seq<byte>)
    requires 0xffff - 63 < |msg| <= 0xffff && msg[|msg| - 1] == 63
    ensures VisitAllLabels(msg, |msg| - 1, true).Panicked?
  {
  }

  // ---------------------------------------------------------------------------------------------
  // Dotted names

  function IndexDot(s: seq<byte>): (i: nat)
    ensures i <= |s| && DOT !in s[..i] && (i < |s| ==> s[i] == DOT)
  {
    if s == [] || s[0] == DOT then 0
    else
      var i := IndexDot(s[1..]) + 1;
      assert s[..i] == [s[0]] + s[1..][..i - 1];
      i
  }

  predicate CanAddLabel(name: seq<byte>, l: seq<byte>) {
    |l| != 0 && |l| <= 63 && |l| + |name| + 2 <= 255 && l[|l| - 1] != 0 && DOT !in l
  }

  /** A terminator is taken off before the label is added, and put back. */
  function AddLabel(name: seq<byte>, l: seq<byte>): seq<byte>
    requires CanAddLabel(name, l)
  {
    (if name != [] && name[|name| - 1] == 0 then name[..|name| - 1] else name) + [|l|] + l + [0]
  }

  datatype Made = Made(data: seq<byte>) | CantAddLabel

  function NewName(domain: seq<byte>): Made {
    if domain == [DOT] then Made([0]) else Build([], domain)
  }

  function Build(name: seq<byte>, domain: seq<byte>): Made
    decreases |domain|
  {
    if domain == [] then Made(name)
    else
      var i := IndexDot(domain);
      if !CanAddLabel(name, domain[..i]) then CantAddLabel
      else if i == |domain| then Made(AddLabel(name, domain[..i]))
      else Build(AddLabel(name, domain[..i]), domain[i + 1..])
  }

  function Dotted(ls: seq<seq<byte>>): seq<byte> {
    if ls == [] then [] else ls[0] + [DOT] + Dotted(ls[1..])
  }

  /** String of a name: what VisitLabels hands over, each label followed by a dot. */
  function NameString(data: seq<byte>): seq<byte> {
    if |data| > 255 then []
    else match VisitAllLabels(data, 0, true)
      case Done(ls, _) => Dotted(ls)
      case Stopped(ls, _) => Dotted(ls)
      case Panicked => []
  }

  lemma {:induction false} BodyAppend(ls: seq<seq<byte>>, l: seq<byte>)
    requires GoodLabels(ls) && GoodLabel(l)
    ensures GoodLabels(ls + [l]) && Body(ls + [l]) == Body(ls) + [|l|] + l
  {
    if ls == [] {
      assert ls + [l] == [l] && [l][1..] == [];
    } else {
      BodyAppend(ls[1..], l);
      assert (ls + [l])[1..] == ls[1..] + [l];
    }
  }

  lemma {:induction false} DottedAppend(ls: seq<seq<byte>>, l: seq<byte>)
    ensures Dotted(ls + [l]) == Dotted(ls) + l + [DOT]
  {
    if ls == [] {
      assert ls + [l] == [l] && [l][1..] == [];
    } else {
      DottedAppend(ls[1..], l);
      assert (ls + [l])[1..] == ls[1..] + [l];
    }
  }

  /** A domain with exactly one trailing dot. */
  function Canonical(domain: seq<byte>): seq<byte> {
    if domain == [] || domain[|domain| - 1] == DOT then domain else domain + [DOT]
  }

  /** The name being built holds the labels ls. */
  predicate HoldsLabels(name: seq<byte>, ls: seq<seq<byte>>) {
    GoodLabels(ls) && |name| <= 255 && name == if ls == [] then [] else Encode(ls)
  }

  lemma {:induction false} AddLabelHolds(name: seq<byte>, ls: seq<seq<byte>>, l: seq<byte>)
    requires HoldsLabels(name, ls) && CanAddLabel(name, l)
    ensures HoldsLabels(AddLabel(name, l), ls + [l])
  {
    BodyAppend(ls, l);
    if ls != [] {
      assert name[..|name| - 1] == Body(ls);
    }
  }

  lemma {:induction false} SplitAtDot(domain: seq<byte>, i: nat)
    requires i < |domain| && domain[i] == DOT
    ensures Canonical(domain) == domain[..i] + [DOT] + Canonical(domain[i + 1..])
  {
    var l, rest := domain[..i], domain[i + 1..];
    assert domain == l + [DOT] + rest;
    if rest != [] {
      assert rest[|rest| - 1] == domain[|domain| - 1];
    }
  }

  lemma Concat4(a: seq<byte>, b: seq<byte>, c: seq<byte>, d: seq<byte>)
    ensures a + b + c + d == a + (b + c + d)
  {
  }

  lemma {:induction false} BuildHolds(name: seq<byte>, ls: seq<seq<byte>>, domain: seq<byte>)
    returns (ls': seq<seq<byte>>)
    requires HoldsLabels(name, ls) && Build(name, domain).Made?
    ensures HoldsLabels(Build(name, domain).data, ls') && Dotted(ls') == Dotted(ls) + Canonical(domain)
    ensures domain != [] || ls != [] ==> ls' != []
    decreases |domain|
  {
    ls' := ls;
    if domain == [] {
      assert Dotted(ls) + [] == Dotted(ls);
    } else {
      var i := IndexDot(domain);
      var l := domain[..i];
      AddLabelHolds(name, ls, l);
      DottedAppend(ls, l);
      if i == |domain| {
        ls' := ls + [l];
        assert l == domain && Canonical(domain) == l + [DOT];
        Concat3(Dotted(ls), l, [DOT]);
      } else {
        var rest := domain[i + 1..];
        ls' := BuildHolds(AddLabel(name, l), ls + [l], rest);
        SplitAtDot(domain, i);
        Concat4(Dotted(ls), l, [DOT], Canonical(rest));
      }
    }
  }

  lemma {:induction false} EncodedDecodes(ls: seq<seq<byte>>, pre: seq<byte>, post: seq<byte>)
    requires GoodLabels(ls) && |pre + Encode(ls) + post| <= 0xffff
    ensures DecodeName(pre + Encode(ls) + post, |pre|) == Name(Encode(ls), |pre| + |Encode(ls)|)
  {
    WalkEncoded(pre, ls, post, true);
    RawIsBody(ls);
  }

  lemma {:induction false} EncodedString(ls: seq<seq<byte>>)
    requires GoodLabels(ls) && |Encode(ls)| <= 255
    ensures NameString(Encode(ls)) == Dotted(ls)
  {
    WalkEncoded([], ls, [], true);
    assert [] + Encode(ls) + [] == Encode(ls);
  }

  /** For every domain but the root that NewName accepts, the name's String is the domain with exactly one
      trailing dot. */
  lemma {:induction false} NewNameString(domain: seq<byte>)
    requires domain != [] && domain != [DOT] && NewName(domain).Made?
    ensures NameString(NewName(domain).data) == Canonical(domain)
  {
    var ls := BuildHolds([], [], domain);
    assert Dotted([]) + Canonical(domain) == Canonical(domain);
    EncodedString(ls);
  }

  /** A name that NewName makes decodes to itself wherever it is put in a message. */
  lemma {:induction false} NewNameDecodes(domain: seq<byte>, pre: seq<byte>, post: seq<byte>)
    requires domain != [] && NewName(domain).Made?
    requires |pre + NewName(domain).data + post| <= 0xffff
    ensures var data := NewName(domain).data;
            DecodeName(pre + data + post, |pre|) == Name(data, |pre| + |data|)
  {
    var ls := NewNameHolds(domain);
    EncodedDecodes(ls, pre, post);
  }

  /** NewName makes the encoding of some labels. */
  lemma {:induction false} NewNameHolds(domain: seq<byte>) returns (ls: seq<seq<byte>>)
    requires domain != [] && NewName(domain).Made?
    ensures GoodLabels(ls) && NewName(domain).data == Encode(ls)
  {
    if domain == [DOT] {
      ls := [];
      assert Encode([]) == [0];
    } else {
      ls := BuildHolds([], [], domain);
    }
  }

  /** The root name is put as a lone terminator, and its String is empty. */
  lemma {:induction false} RootString()
    ensures NewName([DOT]) == Made([0]) && NameString([0]) == []
  {
  }
}
