/** The buffer that a DNS message is printed into (eth/dns/types.go): its length is computed in 16 bits before
    anything is appended, and the numbers of a record are put into capacity that has to be there already. */
module DnsBuffers {
  import opened Rings
  import opened DnsMessages
  import DnsCodec

  /** How many bytes a record appends: its name, its numbers and its data. Only the numbers need capacity. */
  datatype Record = Record(name: nat, numbers: nat, data: nat)

  /** The records that are appended: printing stops with an error at the first one without a name. */
  function Records(m: Message): seq<Record> {
    Live(AllRecords(m))
  }

  function AllRecords(m: Message): seq<Record> {
    Questions(m.questions) + Resources(m.answers) + Resources(m.authorities) + Resources(m.additionals)
  }

  function Live(rs: seq<Record>): seq<Record> {
    if rs == [] || rs[0].name == 0 then [] else [rs[0]] + Live(rs[1..])
  }

  predicate AllNamed(rs: seq<Record>) {
    forall i :: 0 <= i < |rs| ==> rs[i].name > 0
  }

  lemma {:induction false} LiveIff(rs: seq<Record>)
    ensures Live(rs) == rs <==> AllNamed(rs)
    ensures |Live(rs)| <= |rs|
  {
    if rs != [] {
      LiveIff(rs[1..]);
      assert rs == [rs[0]] + rs[1..];
      assert AllNamed(rs) <==> rs[0].name > 0 && AllNamed(rs[1..]);
    }
  }

  /** Every record is appended exactly when the message can be printed. */
  lemma {:induction false} AllAppendedIff(m: Message)
    ensures Records(m) == AllRecords(m) <==> AppendTo(m).Printed?
  {
    LiveIff(AllRecords(m));
    var q, a, n, d := Questions(m.questions), Resources(m.answers), Resources(m.authorities), Resources(m.additionals);
    NamedConcat(q, a);
    NamedConcat(q + a, n);
    NamedConcat(q + a + n, d);
    QuestionsNamed(m.questions);
    ResourcesNamed(m.answers);
    ResourcesNamed(m.authorities);
    ResourcesNamed(m.additionals);
  }

  lemma {:induction false} NamedConcat(rs: seq<Record>, ts: seq<Record>)
    ensures AllNamed(rs + ts) <==> AllNamed(rs) && AllNamed(ts)
  {
    if AllNamed(rs + ts) {
      assert forall i :: 0 <= i < |rs| ==> rs[i] == (rs + ts)[i];
      assert forall i :: 0 <= i < |ts| ==> ts[i] == (rs + ts)[|rs| + i];
    }
  }

  lemma {:induction false} QuestionsNamed(qs: seq<Question>)
    ensures AllNamed(Questions(qs)) <==> forall i :: 0 <= i < |qs| ==> qs[i].name != []
  {
    if AllNamed(Questions(qs)) {
      assert forall i :: 0 <= i < |qs| ==> Questions(qs)[i].name == |qs[i].name|;
    }
  }

  lemma {:induction false} ResourcesNamed(xs: seq<Resource>)
    ensures AllNamed(Resources(xs)) <==> forall i :: 0 <= i < |xs| ==> xs[i].name != []
  {
    if AllNamed(Resources(xs)) {
      assert forall i :: 0 <= i < |xs| ==> Resources(xs)[i].name == |xs[i].name|;
    }
  }

  function Questions(qs: seq<Question>): (rs: seq<Record>)
    ensures |rs| == |qs|
  {
    seq(|qs|, i requires 0 <= i < |qs| => Record(|qs[i].name|, 4, 0))
  }

  function Resources(xs: seq<Resource>): (rs: seq<Record>)
    ensures |rs| == |xs|
  {
    seq(|xs|, i requires 0 <= i < |xs| => Record(|xs[i].name|, 10, |xs[i].data|))
  }

  /** The capacity once n bytes are needed; grow is what the allocator gives when there is not enough. */
  function Room(n: nat, cap: nat, grow: nat -> nat): nat {
    if n <= cap then cap else if grow(n) > n then grow(n) else n
  }

  /** Whether the records can be appended to a buffer with the given length and capacity. */
  predicate Appends(rs: seq<Record>, len: nat, cap: nat, grow: nat -> nat)
    decreases |rs|
  {
    rs == [] ||
    (var named := len + rs[0].name;
     var cap1 := Room(named, cap, grow);
     var numbered := named + rs[0].numbers;
     var end := numbered + rs[0].data;
     numbered <= cap1 && Appends(rs[1..], end, Room(end, cap1, grow), grow))
  }

  /** Whether a header and records work without a panic on a buffer that is first made to have room for n bytes. */
  predicate Works(rs: seq<Record>, n: nat, len: nat, cap: nat, grow: nat -> nat) {
    var cap1 := Room(len + n, cap, grow);
    len + SIZE_HEADER <= cap1 && Appends(rs, len + SIZE_HEADER, cap1, grow)
  }

  /** AppendTo asks for room for the 16-bit length of the message. */
  predicate Prints(m: Message, len: nat, cap: nat, grow: nat -> nat) {
    Works(Records(m), |MessageBytes(m)| % 0x1_0000, len, cap, grow)
  }

  /** The bytes up to the data of the last record, which alone may go beyond the capacity. */
  function Needed(rs: seq<Record>): nat {
    if rs == [] then 0
    else if |rs| == 1 then rs[0].name + rs[0].numbers
    else rs[0].name + rs[0].numbers + rs[0].data + Needed(rs[1..])
  }

  lemma {:induction false} NeededFits(rs: seq<Record>, len: nat, cap: nat, grow: nat -> nat)
    requires len + Needed(rs) <= cap
    ensures Appends(rs, len, cap, grow)
    decreases |rs|
  {
    if |rs| == 1 {
      assert rs[1..] == [];
    } else if rs != [] {
      NeededFits(rs[1..], len + rs[0].name + rs[0].numbers + rs[0].data, cap, grow);
    }
  }

  /** An allocator that gives exactly what is asked for. */
  function Exact(): nat -> nat {
    (n: nat) => n
  }

  predicate AllNumbered(rs: seq<Record>) {
    forall i :: 0 <= i < |rs| ==> rs[i].numbers > 0
  }

  lemma {:induction false} LiveNumbered(rs: seq<Record>)
    requires AllNumbered(rs)
    ensures AllNumbered(Live(rs))
  {
    if rs != [] {
      LiveNumbered(rs[1..]);
    }
  }

  lemma {:induction false} NeededIsNeeded(rs: seq<Record>, len: nat, cap: nat)
    requires len <= cap < len + Needed(rs) && AllNumbered(rs)
    ensures !Appends(rs, len, cap, Exact())
    decreases |rs|
  {
    var numbered := len + rs[0].name + rs[0].numbers;
    if numbered <= cap {
      var end := numbered + rs[0].data;
      NeededIsNeeded(rs[1..], end, Room(end, cap, Exact()));
    }
  }

  lemma {:induction false} WorksIf(rs: seq<Record>, n: nat, len: nat, cap: nat, grow: nat -> nat)
    requires SIZE_HEADER + Needed(rs) <= n && len <= cap
    ensures Works(rs, n, len, cap, grow)
  {
    NeededFits(rs, len + SIZE_HEADER, Room(len + n, cap, grow), grow);
  }

  lemma {:induction false} WorksOnlyIf(rs: seq<Record>, n: nat)
    requires SIZE_HEADER + Needed(rs) > n && AllNumbered(rs)
    ensures !Works(rs, n, 0, 0, Exact())
  {
    if SIZE_HEADER <= n {
      NeededIsNeeded(rs, SIZE_HEADER, n);
    }
  }

  /** Printing never panics, whatever the buffer and the allocator, if and only if the message up to the data of its
      last record is no longer than the 16-bit length of the whole. */
  lemma {:induction false} PrintsIff(m: Message)
    ensures (forall len: nat, cap: nat, grow: nat -> nat | len <= cap :: Prints(m, len, cap, grow)) <==>
              SIZE_HEADER + Needed(Records(m)) <= |MessageBytes(m)| % 0x1_0000
  {
    var n, rs := |MessageBytes(m)| % 0x1_0000, Records(m);
    LiveNumbered(AllRecords(m));
    if SIZE_HEADER + Needed(rs) <= n {
      forall len: nat, cap: nat, grow: nat -> nat | len <= cap
        ensures Prints(m, len, cap, grow)
      {
        WorksIf(rs, n, len, cap, grow);
      }
    } else {
      WorksOnlyIf(rs, n);
      assert !Prints(m, 0, 0, Exact());
    }
  }

  // ---------------------------------------------------------------------------------------------
  // Messages of up to 65535 bytes

  function Sum(rs: seq<Record>): nat {
    if rs == [] then 0 else rs[0].name + rs[0].numbers + rs[0].data + Sum(rs[1..])
  }

  lemma {:induction false} SumConcat(rs: seq<Record>, ts: seq<Record>)
    ensures Sum(rs + ts) == Sum(rs) + Sum(ts)
  {
    if rs == [] {
      assert rs + ts == ts;
    } else {
      assert (rs + ts)[1..] == rs[1..] + ts;
      SumConcat(rs[1..], ts);
    }
  }

  lemma {:induction false} NeededAtMost(rs: seq<Record>)
    ensures Needed(rs) <= Sum(rs)
  {
    if |rs| > 1 {
      NeededAtMost(rs[1..]);
    }
  }

  lemma {:induction false} QuestionsSum(qs: seq<Question>)
    ensures Sum(Questions(qs)) == |QuestionsBytes(qs)|
  {
    if qs != [] {
      QuestionsSum(qs[1..]);
      assert Questions(qs)[1..] == Questions(qs[1..]);
    }
  }

  lemma {:induction false} ResourcesSum(xs: seq<Resource>)
    ensures Sum(Resources(xs)) == |ResourcesBytes(xs)|
  {
    if xs != [] {
      ResourcesSum(xs[1..]);
      assert Resources(xs)[1..] == Resources(xs[1..]);
    }
  }

  lemma {:induction false} LiveSum(rs: seq<Record>)
    ensures Sum(Live(rs)) <= Sum(rs)
  {
    if rs != [] {
      LiveSum(rs[1..]);
      assert Live(rs) != [] ==> Live(rs)[1..] == Live(rs[1..]);
    }
  }

  lemma {:induction false} RecordsSum(m: Message)
    ensures SIZE_HEADER + Sum(AllRecords(m)) == |MessageBytes(m)|
  {
    var q, a, n, d := Questions(m.questions), Resources(m.answers), Resources(m.authorities), Resources(m.additionals);
    QuestionsSum(m.questions);
    ResourcesSum(m.answers);
    ResourcesSum(m.authorities);
    ResourcesSum(m.additionals);
    SumConcat(q, a);
    SumConcat(q + a, n);
    SumConcat(q + a + n, d);
  }

  /** A message that fits 65535 bytes is printed without a panic. */
  lemma {:induction false} FittingPrints(m: Message, len: nat, cap: nat, grow: nat -> nat)
    requires |MessageBytes(m)| <= 0xffff && len <= cap
    ensures Prints(m, len, cap, grow)
  {
    NeededInMessage(m);
    FittingWorks(Records(m), |MessageBytes(m)|, len, cap, grow);
  }

  lemma {:induction false} NeededInMessage(m: Message)
    ensures SIZE_HEADER + Needed(Records(m)) <= |MessageBytes(m)|
  {
    RecordsSum(m);
    LiveSum(AllRecords(m));
    NeededAtMost(Records(m));
  }

  lemma {:induction false} FittingWorks(rs: seq<Record>, n: nat, len: nat, cap: nat, grow: nat -> nat)
    requires SIZE_HEADER + Needed(rs) <= n <= 0xffff && len <= cap
    ensures Works(rs, n % 0x1_0000, len, cap, grow)
  {
    WorksIf(rs, n, len, cap, grow);
  }

  // ---------------------------------------------------------------------------------------------
  // Printing with its buffer

  datatype Outcome = Done(bytes: seq<byte>) | NoName | PrintPanic

  lemma {:induction false} AppendsNext(rs: seq<Record>, len: nat, cap: nat, grow: nat -> nat)
    requires rs != []
    ensures var named := len + rs[0].name;
            var cap1 := Room(named, cap, grow);
            var end := named + rs[0].numbers + rs[0].data;
            if rs[0].name == 0 then Appends(Live(rs), len, cap, grow)
            else Appends(Live(rs), len, cap, grow) <==>
                   named + rs[0].numbers <= cap1 && Appends(Live(rs[1..]), end, Room(end, cap1, grow), grow)
  {
    if rs[0].name != 0 {
      assert Live(rs)[1..] == Live(rs[1..]);
    }
  }

  /** Whether a record fits, and the buffer after it. */
  function OneMore(r: Record, len: nat, cap: nat, grow: nat -> nat): (bool, nat, nat) {
    var cap1 := Room(len + r.name, cap, grow);
    var end := len + r.name + r.numbers + r.data;
    (len + r.name + r.numbers <= cap1, end, Room(end, cap1, grow))
  }

  lemma {:induction false} SuffixNext(rs: seq<Record>, i: nat, len: nat, cap: nat, grow: nat -> nat)
    requires i < |rs|
    ensures var (fits, end, cap') := OneMore(rs[i], len, cap, grow);
            Appends(Live(rs[i..]), len, cap, grow) <==>
              rs[i].name == 0 || (fits && Appends(Live(rs[i + 1..]), end, cap', grow))
  {
    AppendsNext(rs[i..], len, cap, grow);
    assert rs[i..][0] == rs[i] && rs[i..][1..] == rs[i + 1..];
  }

  method AppendOne(r: Record, len: nat, cap: nat, grow: nat -> nat) returns (fits: bool, at: nat, room: nat)
    ensures fits == OneMore(r, len, cap, grow).0
    ensures fits ==> (at, room) == (OneMore(r, len, cap, grow).1, OneMore(r, len, cap, grow).2)
  {
    at := len + r.name;
    room := Room(at, cap, grow);
    at := at + r.numbers;
    fits := at <= room;
    at := at + r.data;
    room := Room(at, room, grow);
  }

  /** Appends records until one has no name or the capacity does not do. */
  method AppendAll(rs: seq<Record>, start: nat, cap: nat, grow: nat -> nat) returns (panic: bool, named: bool)
    ensures panic <==> !Appends(Live(rs), start, cap, grow)
    ensures !panic ==> (named <==> AllNamed(rs))
  {
    var at: nat, room: nat := start, cap;
    assert rs[0..] == rs;
    for i := 0 to |rs|
      invariant forall j :: 0 <= j < i ==> rs[j].name > 0
      invariant Appends(Live(rs), start, cap, grow) <==> Appends(Live(rs[i..]), at, room, grow)
    {
      SuffixNext(rs, i, at, room, grow);
      if rs[i].name == 0 {
        return false, false;
      }
      var fits;
      fits, at, room := AppendOne(rs[i], at, room, grow);
      if !fits {
        return true, false;
      }
    }
    return false, true;
  }

  lemma {:induction false} NamedIff(m: Message)
    ensures AllNamed(AllRecords(m)) <==> AppendTo(m).Printed?
  {
    AllAppendedIff(m);
    LiveIff(AllRecords(m));
  }

  /** What becomes of the buffer. */
  method FillBuffer(m: Message, len: nat, cap: nat, grow: nat -> nat) returns (panic: bool, named: bool)
    ensures panic <==> !Prints(m, len, cap, grow)
    ensures !panic ==> (named <==> AllNamed(AllRecords(m)))
  {
    var length := DnsCodec.MessageLen(m);
    var room := Room(len + length, cap, grow);
    if len + SIZE_HEADER > room {
      return true, false;
    }
    panic, named := AppendAll(AllRecords(m), len + SIZE_HEADER, room, grow);
  }

  /** AppendTo into a buffer with the given length and capacity: it panics exactly when the buffer does not do, and
      otherwise appends the message, or fails exactly when a record has no name. */
  method PrintInto(m: Message, len: nat, cap: nat, grow: nat -> nat) returns (r: Outcome)
    ensures r.PrintPanic? <==> !Prints(m, len, cap, grow)
    ensures Prints(m, len, cap, grow) ==>
              r == if AppendTo(m).Printed? then Done(MessageBytes(m)) else NoName
  {
    var panic, named := FillBuffer(m, len, cap, grow);
    NamedIff(m);
    if panic {
      return PrintPanic;
    } else if !named {
      return NoName;
    }
    var p := DnsCodec.AppendMessage(m);
    return Done(p.bytes);
  }

  // ---------------------------------------------------------------------------------------------
  // A message that panics

  /** Two answers with 40000 bytes of data each, for the root. */
  function Heavy(zeros: seq<byte>): Message
    requires |zeros| == 40000
  {
    var r := Resource([0], 1, 1, 0, 40000, zeros);
    Message(Header(0, 0, 0, 2, 0, 0), [], [r, r], [], [])
  }

  lemma {:induction false} HeavyRecords(zeros: seq<byte>)
    requires |zeros| == 40000
    ensures AppendTo(Heavy(zeros)).Printed?
    ensures Records(Heavy(zeros)) == [Record(1, 10, 40000), Record(1, 10, 40000)]
  {
    var m := Heavy(zeros);
    AllAppendedIff(m);
    assert AllRecords(m) == [Record(1, 10, 40000), Record(1, 10, 40000)];
  }

  lemma {:induction false} OneRecord(r: Record)
    ensures Sum([r]) == r.name + r.numbers + r.data && Needed([r]) == r.name + r.numbers
  {
    assert [r][1..] == [];
  }

  /** It has names, and 80034 bytes, of which printing asks room for 14498 and needs 40034 before its last data. */
  lemma {:induction false} HeavyPanics(zeros: seq<byte>)
    requires |zeros| == 40000
    ensures AppendTo(Heavy(zeros)).Printed? && |MessageBytes(Heavy(zeros))| == 80034
    ensures exists len: nat, cap: nat, grow: nat -> nat :: len <= cap && !Prints(Heavy(zeros), len, cap, grow)
  {
    var m := Heavy(zeros);
    var r := Record(1, 10, 40000);
    HeavyRecords(zeros);
    RecordsSum(m);
    assert [r, r][1..] == [r];
    OneRecord(r);
    PrintsIff(m);
  }
}
