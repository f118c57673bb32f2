/** Sequence numbers and window sizes: 32-bit unsigned arithmetic (valuesize.go), with the wrap-around
    written out, and its relation to unbounded stream positions. */
module SeqNum {

  const MODULUS: int := 0x1_0000_0000
  const HALF: int := 0x8000_0000

  /** A sequence number. */
  type Value = x: int | 0 <= x < 0x1_0000_0000

  /** The length of a window or of a segment. */
  type Size = x: int | 0 <= x < 0x1_0000_0000

  /** Unsigned addition of a size, modulo 2^32. */
  function Add(v: Value, s: Size): Value {
    if v + s < MODULUS then v + s else v + s - MODULUS
  }

  /** Unsigned subtraction, modulo 2^32. */
  function Sub(v: Value, w: Value): Value {
    if v >= w then v - w else v - w + MODULUS
  }

  /** The size of the window [v, w). */
  function Sizeof(v: Value, w: Value): Size {
    Sub(w, v)
  }

  /** The sign bit of the 32-bit difference v - w. */
  predicate LessThan(v: Value, w: Value) {
    Sub(v, w) >= HALF
  }

  predicate LessThanEq(v: Value, w: Value) {
    v == w || LessThan(v, w)
  }

  predicate InRange(v: Value, a: Value, b: Value) {
    Sub(v, a) < Sub(b, a)
  }

  predicate InWindow(v: Value, first: Value, size: Size) {
    InRange(v, first, Add(first, size))
  }

  /** The sequence number of an unbounded stream position. */
  function Wrap(p: int): Value {
    p % MODULUS
  }

  lemma AddIsShift(p: int, s: Size)
    ensures Add(Wrap(p), s) == Wrap(p + s)
  {
  }

  lemma WrapOfValue(v: Value)
    ensures Wrap(v) == v
  {
  }

  /** Wrap is injective on every interval shorter than 2^32. */
  lemma WrapInjective(p: int, q: int)
    requires -MODULUS < p - q < MODULUS
    ensures Wrap(p) == Wrap(q) <==> p == q
  {
  }

  lemma SubIsDistance(p: int, q: int)
    ensures Sub(Wrap(p), Wrap(q)) == Wrap(p - q)
  {
  }

  /** The signed comparison is the order of the positions, across every wrap, while they are
      less than half the number space apart. */
  lemma LessThanIsOrder(p: int, q: int)
    requires -HALF < p - q < HALF
    ensures LessThan(Wrap(p), Wrap(q)) <==> p < q
    ensures LessThanEq(Wrap(p), Wrap(q)) <==> p <= q
  {
  }

  /** Exactly half the number space apart, each value is "less than" the other; nowhere else. */
  lemma LessThanBothWaysExactlyAtHalf(v: Value, w: Value)
    ensures LessThan(v, w) && LessThan(w, v) <==> Sizeof(v, w) == HALF
    ensures !LessThan(v, w) && !LessThan(w, v) <==> v == w
  {
  }

  lemma SizeofIsDistance(p: int, q: int)
    requires 0 <= q - p < MODULUS
    ensures Sizeof(Wrap(p), Wrap(q)) == q - p
  {
  }

  /** InWindow is interval membership of the positions. */
  lemma InWindowIsInterval(v: int, first: int, size: Size)
    requires size <= HALF && -HALF <= v - first < HALF
    ensures InWindow(Wrap(v), Wrap(first), size) <==> first <= v < first + size
  {
  }
}
