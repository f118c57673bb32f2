/** NTP timestamp arithmetic (eth/ntp/ntp.go): 32-bit seconds and fractions, scaled by 2^32 - 1, against
    durations in nanoseconds. */
module Ntp {

  type u32 = x: int | 0 <= x < 0x1_0000_0000

  const SECOND: int := 1_000_000_000
  const MAX_U32: int := 0xffff_ffff
  const MAX_I64: int := 0x7fff_ffff_ffff_ffff

  datatype Timestamp = Timestamp(sec: u32, fra: u32)

  /** The fraction of a number of nanoseconds below one second. */
  function Fraction(ns: nat): (f: u32)
    requires ns < SECOND
    ensures f < MAX_U32
  {
    ns * MAX_U32 / SECOND
  }

  /** The nanoseconds of a fraction. */
  function Nanos(f: u32): (ns: int)
    ensures 0 <= ns <= SECOND
  {
    f * SECOND / MAX_U32
  }

  /** Go's quotient and remainder, which truncate toward zero. */
  function Quotient(d: int): int {
    if d >= 0 then d / SECOND else -(-d / SECOND)
  }

  function Remainder(d: int): int {
    d - Quotient(d) * SECOND
  }

  /** The fraction that Add adds, computed in unsigned 64 and then 32 bits; a negative remainder wraps around. */
  function Added(d: int): u32 {
    (Remainder(d) * MAX_U32 % 0x1_0000_0000_0000_0000) / SECOND % 0x1_0000_0000
  }

  function Add(t: Timestamp, d: int): Timestamp {
    var sum := t.fra + Added(d);
    var carry := if sum > MAX_U32 then 1 else 0;
    Timestamp((t.sec + Quotient(d) + carry) % 0x1_0000_0000, sum - carry * 0x1_0000_0000)
  }

  /** For a duration that is not negative the fraction is that of its nanoseconds. */
  lemma {:induction false} AddedIsFraction(d: nat)
    ensures Quotient(d) == d / SECOND && Remainder(d) == d % SECOND && Added(d) == Fraction(d % SECOND)
  {
    var ns := d % SECOND;
    assert d == d / SECOND * SECOND + ns;
    assert 0 <= ns * MAX_U32 < 0x1_0000_0000_0000_0000;
  }

  function Sub(t: Timestamp, v: Timestamp): int {
    (t.sec - v.sec) * SECOND + (if t.fra >= v.fra then Nanos(t.fra - v.fra) else -Nanos(v.fra - t.fra))
  }

  /** Time as nanoseconds after the base time; Sub of two times saturates at the largest duration. */
  datatype Result = TooLarge | BeforeBase | Ok(t: Timestamp)

  function FromTime(ns: int): Result {
    if ns < 0 then BeforeBase
    else
      var off := if ns > MAX_I64 then MAX_I64 else ns;
      if off / SECOND > MAX_U32 then TooLarge else Ok(Timestamp(off / SECOND, Fraction(off % SECOND)))
  }

  function ToTime(t: Timestamp): nat {
    SECOND * t.sec + SECOND * t.fra / MAX_U32
  }

  /** No intermediate result overflows 64 bits. */
  lemma NoOverflow(t: Timestamp, v: Timestamp, ns: nat)
    requires ns < SECOND
    ensures ns * MAX_U32 < 0x1_0000_0000_0000_0000
    ensures -MAX_I64 <= Sub(t, v) <= MAX_I64 && SECOND * t.fra <= MAX_I64 && ToTime(t) <= MAX_I64
  {
  }

  /** Whether the fraction of ns is exact. */
  predicate Exact(ns: nat) {
    ns * MAX_U32 % SECOND == 0
  }

  /** To a fraction and back at most one nanosecond is lost, and none exactly when the fraction is exact. */
  lemma {:induction false} NanosOfFraction(ns: nat)
    requires ns < SECOND
    ensures Nanos(Fraction(ns)) == if Exact(ns) then ns else ns - 1
  {
    var p := ns * MAX_U32;
    var f, r := p / SECOND, p % SECOND;
    assert f * SECOND == p - r;
    if r == 0 {
      assert f * SECOND == ns * MAX_U32;
    } else {
      assert (ns - 1) * MAX_U32 <= f * SECOND < ns * MAX_U32;
    }
  }

  /** Counted down from the top of the next second, the fraction of ns comes back to the nanosecond. */
  lemma {:induction false} NanosOfBorrow(ns: nat)
    requires ns < SECOND && Fraction(ns) > 0
    ensures Nanos(0x1_0000_0000 - Fraction(ns)) == SECOND - ns
  {
    var p := ns * MAX_U32;
    var f, r := p / SECOND, p % SECOND;
    assert f * SECOND == p - r;
    var q := (0x1_0000_0000 - f) * SECOND;
    assert q == SECOND * MAX_U32 + SECOND - p + r;
    assert (SECOND - ns) * MAX_U32 <= q < (SECOND - ns + 1) * MAX_U32;
  }

  predicate Carries(t: Timestamp, d: int) {
    t.fra + Added(d) > MAX_U32
  }

  /** Adding a duration and taking the difference gives the duration back, or one nanosecond less: exactly
      when no carry makes up for a fraction that is not exact. */
  lemma {:induction false} AddThenSub(t: Timestamp, d: nat)
    requires t.sec + d / SECOND + (if Carries(t, d) then 1 else 0) <= MAX_U32
    ensures Sub(Add(t, d), t) == if Carries(t, d) || Exact(d % SECOND) then d else d - 1
  {
    var ns := d % SECOND;
    var f := Fraction(ns);
    AddedIsFraction(d);
    assert d == d / SECOND * SECOND + ns;
    if Carries(t, d) {
      NanosOfBorrow(ns);
      var u := Add(t, d);
      assert u.fra == t.fra + f - 0x1_0000_0000 && t.fra - u.fra == 0x1_0000_0000 - f;
      assert u.sec == t.sec + d / SECOND + 1;
      assert Sub(u, t) == (d / SECOND + 1) * SECOND - (SECOND - ns);
    } else {
      NanosOfFraction(ns);
      var u := Add(t, d);
      assert u.fra - t.fra == f && u.sec == t.sec + d / SECOND;
      assert Sub(u, t) == d / SECOND * SECOND + Nanos(f);
    }
  }

  /** Adding a negative duration and taking the difference gives the duration back exactly when it is a whole number
      of seconds: the fraction of the others wraps around, and the difference comes out too large. */
  lemma {:induction false} NegativeAddThenSub(t: Timestamp, d: int)
    requires d < 0 && 0 <= t.sec + Quotient(d) && t.sec + Quotient(d) + (if Carries(t, d) then 1 else 0) <= MAX_U32
    ensures Sub(Add(t, d), t) == d <==> Remainder(d) == 0
    ensures Remainder(d) != 0 ==> Sub(Add(t, d), t) >= d - Remainder(d) > d
  {
    var q, r, f := Quotient(d), Remainder(d), Added(d);
    assert d == q * SECOND + r && r <= 0;
    var u := Add(t, d);
    if Carries(t, d) {
      assert u.sec == t.sec + q + 1 && t.fra - u.fra == 0x1_0000_0000 - f;
      assert Sub(u, t) == (q + 1) * SECOND - Nanos(0x1_0000_0000 - f);
    } else {
      assert u.sec == t.sec + q && u.fra - t.fra == f;
      assert Sub(u, t) == q * SECOND + Nanos(f);
    }
    if r == 0 {
      WholeSeconds(d);
    }
  }

  lemma {:induction false} WholeSeconds(d: int)
    requires Remainder(d) == 0
    ensures Added(d) == 0
  {
  }

  /** The difference changes sign when its arguments are exchanged. It is zero between different timestamps
      exactly when they are within four units of fraction, or when one has the largest fraction and the other
      is the start of the next second. */
  lemma {:induction false} SubAntisymmetric(t: Timestamp, v: Timestamp)
    ensures Sub(t, v) == -Sub(v, t)
    ensures Sub(t, v) == 0 <==>
              || (t.sec == v.sec && -4 <= t.fra - v.fra <= 4)
              || (t.sec == v.sec + 1 && v.fra - t.fra == MAX_U32)
              || (v.sec == t.sec + 1 && t.fra - v.fra == MAX_U32)
  {
  }

  /** A time becomes a timestamp exactly when it lies in the era, and comes back with at most one
      nanosecond lost. */
  lemma {:induction false} TimeRoundTrip(ns: int)
    ensures FromTime(ns).Ok? <==> 0 <= ns < 0x1_0000_0000 * SECOND
    ensures FromTime(ns).Ok? ==> ToTime(FromTime(ns).t) == if Exact(ns % SECOND) then ns else ns - 1
  {
    if FromTime(ns).Ok? {
      NanosOfFraction(ns % SECOND);
      assert ns == ns / SECOND * SECOND + ns % SECOND;
    }
  }

  // ---------------------------------------------------------------------------------------------
  // Against the times that timestamps stand for

  /** The time of a timestamp: whole seconds, and a fraction of which 2^32 - 1 units are a second, rounded down. */
  lemma {:induction false} TimeOfTimestamp(t: Timestamp)
    ensures ToTime(Timestamp(t.sec, 0)) == t.sec * 1_000_000_000
    ensures var rest := ToTime(t) - t.sec * 1_000_000_000;
            rest * 0xffff_ffff <= t.fra * 1_000_000_000 < (rest + 1) * 0xffff_ffff
  {
  }

  /** Sub is the difference of the times, up to one nanosecond. */
  lemma {:induction false} SubIsDifference(t: Timestamp, v: Timestamp)
    ensures -1 <= Sub(t, v) - (ToTime(t) - ToTime(v)) <= 1
  {
  }

  /** Adding a duration makes a timestamp later by that much within its era, up to one nanosecond, and one more for the
      unit of fraction that a carry into the seconds loses. */
  lemma {:induction false} AddIsLater(t: Timestamp, d: nat)
    requires t.sec + d / 1_000_000_000 + (if Carries(t, d) then 1 else 0) <= 0xffff_ffff
    ensures -2 <= ToTime(Add(t, d)) - (ToTime(t) + d) <= 1
  {
    AddThenSub(t, d);
    SubIsDifference(Add(t, d), t);
  }
}
