/** When parsing a DNS message panics (eth/dns/types.go): exactly which messages, for the lengths at which the label
    walker itself cannot. */
module DnsPanics {
  import opened Rings
  import opened Checksum
  import opened DnsNames
  import opened DnsMessages

  /** The longest message in which 16-bit offsets do not wrap around inside a label. */
  const SAFE_LENGTH: nat := 0xffff - 63

  /** The name at the offset can be walked, and fewer than ten bytes follow it. */
  predicate Truncated(msg: seq<byte>, off: u16) {
    VisitAllLabels(msg, off, true).Done? && VisitAllLabels(msg, off, true).end + 10 > |msg|
  }

  // ---------------------------------------------------------------------------------------------
  // One record

  /** Decoding a record never panics; skipping a question does not either; skipping a resource panics exactly when
      it is truncated, which decoding reports as an error. */
  lemma {:induction false} RecordPanics(msg: seq<byte>, off: u16)
    requires |msg| <= SAFE_LENGTH
    ensures !DecodeQuestion(msg, off).Crashed? && !SkipQuestion(msg, off).Crashed? && !DecodeResource(msg, off).Crashed?
    ensures SkipResource(msg, off).Crashed? <==> Truncated(msg, off)
    ensures Truncated(msg, off) ==> DecodeResource(msg, off) == Failed(ResourceLen)
  {
    ShortNeverPanics(msg, off, 0, off, true);
    if Walk(msg, off, 0, off, true).Done? {
      WalkSound(msg, off, 0, off, true);
    }
  }

  // ---------------------------------------------------------------------------------------------
  // One section

  lemma {:induction false} DecodeManyNeverPanics<T>(step: u16 -> Step<T>, off: u16, n: nat)
    requires forall o: u16 :: !step(o).Crashed?
    ensures !DecodeMany(step, off, n).Crashed?
    decreases n
  {
    if n > 0 && step(off).Got? {
      DecodeManyNeverPanics(step, step(off).off, n - 1);
    }
  }

  /** The offset where the record behind the first k is skipped. */
  predicate SkipReaches(step: u16 -> Step<()>, off: u16, k: nat, o: u16) {
    SkipMany(step, off, k) == Got((), o)
  }

  /** Skipping n records panics exactly when it reaches one that panics. */
  lemma {:induction false} SkipManyPanics(step: u16 -> Step<()>, off: u16, n: nat)
    ensures SkipMany(step, off, n).Crashed? <==>
              exists k: nat, o: u16 :: k < n && SkipReaches(step, off, k, o) && step(o).Crashed?
    decreases n
  {
    if n > 0 {
      assert SkipReaches(step, off, 0, off);
      if step(off).Got? {
        var next := step(off).off;
        SkipManyPanics(step, next, n - 1);
        forall k: nat, o: u16 | k < n - 1 && SkipReaches(step, next, k, o) && step(o).Crashed?
          ensures exists k: nat, o: u16 :: k < n && SkipReaches(step, off, k, o) && step(o).Crashed?
        {
          assert SkipReaches(step, off, k + 1, o);
        }
        forall k: nat, o: u16 | k < n && SkipReaches(step, off, k, o) && step(o).Crashed?
          ensures exists k: nat, o: u16 :: k < n - 1 && SkipReaches(step, next, k, o) && step(o).Crashed?
        {
          assert k > 0;
          assert SkipReaches(step, next, k - 1, o);
        }
      } else {
        forall k: nat, o: u16 | k < n && SkipReaches(step, off, k, o) && step(o).Crashed?
          ensures k == 0 && o == off
        {
        }
      }
    }
  }

  /** Parsing a section comes to skip the record at offset o, for want of room. */
  ghost predicate Skips<T>(decode: u16 -> Step<T>, skip: u16 -> Step<()>, off: u16, count: u16, cap: u16, o: u16) {
    var r := DecodeMany(decode, off, Limit(count, cap));
    r.Got? && exists k: nat :: k < count - Limit(count, cap) && SkipReaches(skip, r.off, k, o)
  }

  lemma {:induction false} SectionPanics<T>(decode: u16 -> Step<T>, skip: u16 -> Step<()>, off: u16, count: u16,
                                            cap: u16)
    requires forall o: u16 :: !decode(o).Crashed?
    ensures Section(decode, skip, off, count, cap).Crashed? <==>
              exists o: u16 :: Skips(decode, skip, off, count, cap, o) && skip(o).Crashed?
  {
    var l := Limit(count, cap);
    DecodeManyNeverPanics(decode, off, l);
    var r := DecodeMany(decode, off, l);
    if r.Got? {
      SkipManyPanics(skip, r.off, count - l);
      if SkipMany(skip, r.off, count - l).Crashed? {
        var k: nat, o: u16 :| k < count - l && SkipReaches(skip, r.off, k, o) && skip(o).Crashed?;
        assert Skips(decode, skip, off, count, cap, o);
      }
    }
  }

  // ---------------------------------------------------------------------------------------------
  // The message

  /** Parsing comes to skip the resource at offset o. */
  ghost predicate Reaches(s: Steps, h: Header, caps: Caps, o: u16) {
    var q := Section(s.question, s.skipQuestion, SIZE_HEADER, h.qd, caps.questions);
    && q.Got?
    && (|| Skips(s.resource, s.skipResource, q.off, h.an, caps.answers, o)
        || (var an := Section(s.resource, s.skipResource, q.off, h.an, caps.answers);
            && an.Got?
            && (|| Skips(s.resource, s.skipResource, an.off, h.ns, caps.authorities, o)
                || (var ns := Section(s.resource, s.skipResource, an.off, h.ns, caps.authorities);
                    && ns.Got?
                    && Skips(s.resource, s.skipResource, ns.off, h.ar, caps.additionals, o)))))
  }

  lemma {:induction false} SectionsPanic(s: Steps, h: Header, caps: Caps)
    requires forall o: u16 :: !s.question(o).Crashed?
    requires forall o: u16 :: !s.skipQuestion(o).Crashed?
    requires forall o: u16 :: !s.resource(o).Crashed?
    ensures Sections(s, h, caps).DecodePanic? <==> exists o: u16 :: Reaches(s, h, caps, o) && s.skipResource(o).Crashed?
  {
    SectionPanics(s.question, s.skipQuestion, SIZE_HEADER, h.qd, caps.questions);
    var q := Section(s.question, s.skipQuestion, SIZE_HEADER, h.qd, caps.questions);
    if q.Got? {
      SectionPanics(s.resource, s.skipResource, q.off, h.an, caps.answers);
      var an := Section(s.resource, s.skipResource, q.off, h.an, caps.answers);
      if an.Got? {
        SectionPanics(s.resource, s.skipResource, an.off, h.ns, caps.authorities);
        var ns := Section(s.resource, s.skipResource, an.off, h.ns, caps.authorities);
        if ns.Got? {
          SectionPanics(s.resource, s.skipResource, ns.off, h.ar, caps.additionals);
        }
      }
    }
  }

  lemma {:induction false} StepsPanic(msg: seq<byte>)
    requires |msg| <= SAFE_LENGTH
    ensures var s := StepsOf(msg);
            forall o: u16 :: && !s.question(o).Crashed? && !s.skipQuestion(o).Crashed? && !s.resource(o).Crashed?
                             && (s.skipResource(o).Crashed? <==> Truncated(msg, o))
  {
    forall o: u16
      ensures var s := StepsOf(msg);
              && !s.question(o).Crashed? && !s.skipQuestion(o).Crashed? && !s.resource(o).Crashed?
              && (s.skipResource(o).Crashed? <==> Truncated(msg, o))
    {
      RecordPanics(msg, o);
    }
  }

  /** Exactly when parsing a message of at most 65472 bytes panics: it comes to skip, for want of room, a resource
      with fewer than ten bytes behind its name. */
  lemma {:induction false} DecodePanicsIff(msg: seq<byte>, caps: Caps)
    requires |msg| <= SAFE_LENGTH
    ensures Decode(msg, caps).DecodePanic? <==>
              && |msg| >= SIZE_HEADER
              && exists o: u16 :: Reaches(StepsOf(msg), DecodeHeader(msg), caps, o) && Truncated(msg, o)
  {
    if |msg| >= SIZE_HEADER {
      StepsPanic(msg);
      SectionsPanic(StepsOf(msg), DecodeHeader(msg), caps);
    }
  }

  /** With room for as many records as the header announces nothing is skipped, and nothing panics. */
  lemma {:induction false} RoomMeansNoPanic(msg: seq<byte>, caps: Caps)
    requires SIZE_HEADER <= |msg| <= SAFE_LENGTH && !TooMany(DecodeHeader(msg), caps)
    ensures !Decode(msg, caps).DecodePanic?
  {
    DecodePanicsIff(msg, caps);
  }

  lemma {:induction false} OneAnswer(s: Steps)
    requires s.skipResource(12).Crashed? && s.resource(12) == Failed(ResourceLen)
    ensures Sections(s, Header(0, 0, 0, 1, 0, 0), Caps(0, 0, 0, 0)).DecodePanic?
    ensures Sections(s, Header(0, 0, 0, 1, 0, 0), Caps(0, 1, 0, 0)) == DecodeFailed(ResourceLen)
  {
    assert SkipMany(s.skipResource, 12, 1).Crashed?;
    assert DecodeMany(s.resource, 12, 1) == Failed(ResourceLen);
  }

  /** A message with a single, truncated answer: with no room for answers it panics, with room for one it is an
      error. */
  lemma {:induction false} TruncatedAnswerPanics(msg: seq<byte>)
    requires SIZE_HEADER <= |msg| <= SAFE_LENGTH && DecodeHeader(msg) == Header(0, 0, 0, 1, 0, 0) && Truncated(msg, 12)
    ensures Decode(msg, Caps(0, 0, 0, 0)).DecodePanic? && Decode(msg, Caps(0, 1, 0, 0)) == DecodeFailed(ResourceLen)
  {
    RecordPanics(msg, 12);
    OneAnswer(StepsOf(msg));
  }

  /** A header that announces an answer, a root name, and nothing more. */
  const SHORT: seq<byte> := [0, 0, 0, 0, 0, 0, 0, 1, 0, 0, 0, 0, 0]

  /** Such a message has 13 bytes. */
  lemma {:induction false} ShortIsTruncated()
    ensures |SHORT| == 13 && Truncated(SHORT, 12) && DecodeHeader(SHORT) == Header(0, 0, 0, 1, 0, 0)
  {
    assert Walk(SHORT, 12, 0, 12, true) == Done([], 13);
  }
}
