/** The Internet checksum (eth/crc.go): an incremental 32-bit sum fed in arbitrary pieces, and the checksum
    of RFC 1071 it computes. */
module Checksum {
  import opened Rings

  type u16 = x: int | 0 <= x < 0x1_0000
  type u32 = x: int | 0 <= x < 0x1_0000_0000

  const M32: int := 0x1_0000_0000

  // ---------------------------------------------------------------------------------------------
  // Section 1 of RFC 1071

  /** Ones' complement addition: the carry is added back in. */
  function OnesAdd(a: u16, b: u16): u16 {
    if a + b > 0xffff then a + b - 0xffff else a + b
  }

  /** Two bytes as a number in network order. */
  function Word(hi: byte, lo: byte): u16 {
    (hi as int) * 256 + (lo as int)
  }

  /** The ones' complement sum of the 16-bit words of s, a last odd byte being padded with a zero byte. */
  function OnesSum(s: seq<byte>): u16 {
    if s == [] then 0
    else if |s| == 1 then Word(s[0], 0)
    else OnesAdd(Word(s[0], s[1]), OnesSum(s[2..]))
  }

  function Rfc1071(s: seq<byte>): u16 {
    0xffff - OnesSum(s)
  }

  // ---------------------------------------------------------------------------------------------
  // The plain sum

  /** The sum of the words of s, the last one padded. */
  function WordSum(s: seq<byte>): nat {
    if s == [] then 0
    else if |s| == 1 then Word(s[0], 0)
    else Word(s[0], s[1]) + WordSum(s[2..])
  }

  /** The sum of the complete words of s. */
  function EvenSum(s: seq<byte>): nat {
    WordSum(s[..|s| - |s| % 2])
  }

  function Words(s: seq<byte>): nat {
    (|s| + 1) / 2
  }

  /** The 16-bit number a sum folds to: carries added back in until there are none. */
  function Norm(n: nat): u16 {
    if n == 0 then 0 else (n - 1) % 0xffff + 1
  }

  lemma NormAdd(a: u16, n: nat)
    ensures Norm(a + n) == OnesAdd(a, Norm(n))
  {
  }

  /** Adding carries as they occur or all at the end comes to the same. */
  lemma {:induction false} OnesSumIsNorm(s: seq<byte>)
    ensures OnesSum(s) == Norm(WordSum(s))
  {
    if |s| >= 2 {
      OnesSumIsNorm(s[2..]);
      NormAdd(Word(s[0], s[1]), WordSum(s[2..]));
    }
  }

  /** Word sums add up over pieces, as long as the first has an even length. */
  lemma {:induction false} WordSumConcat(s: seq<byte>, t: seq<byte>)
    requires |s| % 2 == 0
    ensures WordSum(s + t) == WordSum(s) + WordSum(t)
  {
    if s == [] {
      assert s + t == t;
    } else {
      assert (s + t)[2..] == s[2..] + t;
      WordSumConcat(s[2..], t);
    }
  }

  lemma {:induction false} WordSumBound(s: seq<byte>)
    ensures WordSum(s) <= Words(s) * 0xffff
  {
    if |s| >= 2 {
      WordSumBound(s[2..]);
    }
  }

  /** 65537 words is the exact bound below which a 32-bit sum cannot overflow. */
  lemma {:induction false} NoOverflow(s: seq<byte>)
    requires Words(s) <= 65537
    ensures WordSum(s) < M32
  {
    WordSumBound(s);
  }

  /** Each overflow of the 32-bit sum loses a carry, so that (up to 65534 overflows) the folded sum gives the
      checksum of RFC 1071 exactly when there was none. */
  lemma {:induction false} ExactUntilOverflow(s: seq<byte>)
    requires WordSum(s) < 0xffff * M32
    ensures 0xffff - Norm(WordSum(s) % M32) == Rfc1071(s) <==> WordSum(s) < M32
  {
    OnesSumIsNorm(s);
    var k, r := WordSum(s) / M32, WordSum(s) % M32;
    if k > 0 {
      assert WordSum(s) == k * M32 + r;
      if r > 0 {
        NormShift(r, k);
      }
    }
  }

  lemma {:induction false} NormShift(r: nat, k: nat)
    requires r > 0 && 0 < k < 0xffff
    ensures Norm(k * M32 + r) != Norm(r)
  {
    var x := (r - 1) % 0xffff;
    assert k * M32 + r - 1 == (k * 65537 + (r - 1) / 0xffff) * 0xffff + k + x;
    if k + x < 0xffff {
      ModUnique(k * M32 + r - 1, k * 65537 + (r - 1) / 0xffff, k + x);
    } else {
      ModUnique(k * M32 + r - 1, k * 65537 + (r - 1) / 0xffff + 1, k + x - 0xffff);
    }
  }

  lemma ModUnique(n: nat, q: nat, x: nat)
    requires n == q * 0xffff + x && x < 0xffff
    ensures n % 0xffff == x
  {
  }

  function Ones(words: nat): seq<byte> {
    if words == 0 then [] else [255, 255] + Ones(words - 1)
  }

  lemma {:induction false} OnesWordSum(words: nat)
    ensures |Ones(words)| == 2 * words && WordSum(Ones(words)) == words * 0xffff
  {
    if words > 0 {
      OnesWordSum(words - 1);
      assert Ones(words)[2..] == Ones(words - 1);
    }
  }

  /** With one word more the 32-bit sum may wrap around, and the checksum comes out wrong. */
  lemma {:induction false} OverflowBreaksChecksum(words: nat)
    requires words == 65538
    ensures Words(Ones(words)) == words && 0xffff - Norm(WordSum(Ones(words)) % M32) != Rfc1071(Ones(words))
  {
    OnesWordSum(words);
    ExactUntilOverflow(Ones(words));
  }

  // ---------------------------------------------------------------------------------------------
  // The incremental sum

  lemma {:induction false} EvenSumPair(s: seq<byte>, a: byte, b: byte)
    requires |s| % 2 == 0
    ensures EvenSum(s + [a, b]) == EvenSum(s) + Word(a, b)
  {
    WordSumConcat(s, [a, b]);
    assert s[..|s|] == s && (s + [a, b])[..|s| + 2] == s + [a, b];
    assert [a, b][2..] == [];
  }

  lemma {:induction false} EvenSumOdd(s: seq<byte>, a: byte)
    requires |s| % 2 == 0
    ensures EvenSum(s + [a]) == EvenSum(s) && WordSum(s + [a]) == EvenSum(s) + Word(a, 0)
  {
    WordSumConcat(s, [a]);
    assert s[..|s|] == s && (s + [a])[..|s|] == s;
  }

  lemma {:induction false} EvenSumCompletes(s: seq<byte>, value: byte)
    requires |s| % 2 == 1
    ensures EvenSum(s + [value]) == EvenSum(s) + Word(s[|s| - 1], value)
  {
    var t := s[..|s| - 1];
    EvenSumPair(t, s[|s| - 1], value);
    EvenSumOdd(t, s[|s| - 1]);
    assert s == t + [s[|s| - 1]];
    assert s + [value] == t + [s[|s| - 1], value];
  }

  /** The unsigned 32-bit addition of the running sum. */
  function Plus(sum: u32, x: u16): u32 {
    if sum + x < M32 then sum + x else sum + x - M32
  }

  lemma PlusIsSum(n: nat, x: u16)
    ensures Plus(n % M32, x) == (n + x) % M32
  {
  }

  /** The fields after the bytes s: the sum of the complete words, and a byte that waits for its partner. */
  ghost predicate Tracks(sum: u32, excedent: byte, needPad: bool, s: seq<byte>) {
    && needPad == (|s| % 2 == 1)
    && (needPad ==> excedent == s[|s| - 1])
    && sum == EvenSum(s) % M32
  }

  lemma {:induction false} TracksFirst(sum: u32, exc: byte, s: seq<byte>, value: byte)
    requires Tracks(sum, exc, false, s)
    ensures Tracks(sum, value, true, s + [value])
  {
    EvenSumOdd(s, value);
  }

  lemma {:induction false} TracksSecond(sum: u32, exc: byte, s: seq<byte>, value: byte, exc': byte)
    requires Tracks(sum, exc, true, s)
    ensures Tracks(Plus(sum, Word(exc, value)), exc', false, s + [value])
  {
    var n, w, t := EvenSum(s), Word(exc, value), s + [value];
    EvenSumCompletes(s, value);
    assert EvenSum(t) == n + w && |t| == |s| + 1;
    PlusIsSum(n, w);
  }

  lemma {:induction false} TracksWord(sum: u32, exc: byte, s: seq<byte>, a: byte, b: byte)
    requires Tracks(sum, exc, false, s)
    ensures Tracks(Plus(sum, Word(a, b)), exc, false, s + [a, b])
  {
    EvenSumPair(s, a, b);
    PlusIsSum(EvenSum(s), Word(a, b));
  }

  lemma {:induction false} TracksAcross(sum: u32, exc: byte, s: seq<byte>, a: byte, b: byte)
    requires Tracks(sum, exc, true, s)
    ensures Tracks(Plus(sum, Word(exc, a)), b, true, s + [a, b])
  {
    TracksSecond(sum, exc, s, a, exc);
    TracksFirst(Plus(sum, Word(exc, a)), exc, s + [a], b);
    assert s + [a] + [b] == s + [a, b];
  }

  function High(v: u16): byte {
    v / 256
  }

  function Low(v: u16): byte {
    v % 256
  }

  /** A number as two bytes in network order. */
  function Bytes16(v: u16): seq<byte> {
    [High(v), Low(v)]
  }

  function Bytes32(v: u32): seq<byte> {
    Bytes16(v / 0x1_0000) + Bytes16(v % 0x1_0000)
  }

  /** The numbers that bytes in network order stand for. */
  function At16(b: seq<byte>, i: nat): u16
    requires i + 2 <= |b|
  {
    Word(b[i], b[i + 1])
  }

  function At32(b: seq<byte>, i: nat): u32
    requires i + 4 <= |b|
  {
    At16(b, i) * 0x1_0000 + At16(b, i + 2)
  }

  /** Unsigned 16-bit addition. */
  function Add16(a: u16, b: u16): u16 {
    if a + b < 0x1_0000 then a + b else a + b - 0x1_0000
  }

  lemma WordOfBytes(v: u16)
    ensures Word(High(v), Low(v)) == v
  {
  }

  class CRC791 {
    var sum: u32
    var excedent: byte
    var needPad: bool
    /** The bytes fed so far. */
    ghost var fed: seq<byte>

    ghost predicate Valid()
      reads this
    {
      Tracks(sum, excedent, needPad, fed)
    }

    constructor ()
      ensures Valid() && fed == []
    {
      sum, excedent, needPad := 0, 0, false;
      fed := [];
    }

    method Reset()
      modifies this
      ensures Valid() && fed == []
    {
      sum, excedent, needPad := 0, 0, false;
      fed := [];
    }

    method AddUint8(value: byte)
      requires Valid()
      modifies this
      ensures Valid() && fed == old(fed) + [value]
    {
      if needPad {
        TracksSecond(sum, excedent, fed, value, excedent);
        sum := Plus(sum, Word(excedent, value));
      } else {
        TracksFirst(sum, excedent, fed, value);
        excedent := value;
      }
      needPad := !needPad;
      fed := fed + [value];
    }

    method AddUint16(value: u16)
      requires Valid()
      modifies this
      ensures Valid() && fed == old(fed) + Bytes16(value)
    {
      if needPad {
        TracksAcross(sum, excedent, fed, High(value), Low(value));
        sum := Plus(sum, Word(excedent, High(value)));
        excedent := Low(value);
      } else {
        TracksWord(sum, excedent, fed, High(value), Low(value));
        WordOfBytes(value);
        sum := Plus(sum, value);
      }
      fed := fed + Bytes16(value);
    }

    method AddUint32(value: u32)
      requires Valid()
      modifies this
      ensures Valid() && fed == old(fed) + Bytes32(value)
    {
      AddUint16(value / 0x1_0000);
      AddUint16(value % 0x1_0000);
      Concat3(old(fed), Bytes16(value / 0x1_0000), Bytes16(value % 0x1_0000));
    }

    /** Feeds all of buff; the count returned leaves out a first byte that completed a word, unless it
        was the only one. */
    method Write(buff: seq<byte>) returns (n: nat)
      requires Valid()
      modifies this
      ensures Valid() && fed == old(fed) + buff
      ensures n == if old(needPad) && |buff| > 1 then |buff| - 1 else |buff|
    {
      if |buff| == 0 {
        assert fed + buff == fed;
        return 0;
      }
      var rest := buff;
      if needPad {
        TracksSecond(sum, excedent, fed, buff[0], 0);
        sum := Plus(sum, Word(excedent, buff[0]));
        rest := buff[1..];
        excedent := 0;
        needPad := false;
        fed := fed + [buff[0]];
        assert buff == [buff[0]] + rest;
        if |rest| == 0 {
          return 1;
        }
        Concat3(old(fed), [buff[0]], rest);
      }
      WriteAligned(rest);
      return |rest|;
    }

    /** The addition of one complete word. */
    method AddPair(a: byte, b: byte)
      requires Valid() && !needPad
      modifies this
      ensures Valid() && !needPad && fed == old(fed) + [a, b]
    {
      TracksWord(sum, excedent, fed, a, b);
      sum := Plus(sum, Word(a, b));
      fed := fed + [a, b];
    }

    method WriteAligned(buff: seq<byte>)
      requires Valid() && !needPad
      modifies this
      ensures Valid() && fed == old(fed) + buff
    {
      var count := |buff|;
      while count > 1
        invariant 0 <= count <= |buff| && !needPad && Valid()
        invariant fed == old(fed) + buff[..|buff| - count]
      {
        var i := |buff| - count;
        AddPair(buff[i], buff[i + 1]);
        assert buff[..i + 2] == buff[..i] + [buff[i], buff[i + 1]];
        count := count - 2;
      }
      if count != 0 {
        AddUint8(buff[|buff| - 1]);
        assert buff == buff[..|buff| - 1] + [buff[|buff| - 1]];
      } else {
        assert buff == buff[..|buff|];
      }
    }

    /** However the bytes were split into calls, the result is the folded 32-bit sum of all their words, and
        the checksum of RFC 1071 as long as that sum cannot overflow. */
    method Sum16() returns (r: u16)
      requires Valid()
      ensures r == 0xffff - Norm(WordSum(fed) % M32)
      ensures Words(fed) <= 65537 ==> r == Rfc1071(fed)
    {
      var total := sum;
      if needPad {
        total := Plus(total, Word(excedent, 0));
      }
      ghost var start := total;
      TotalIsWordSum(fed, sum, needPad, excedent);
      if Words(fed) <= 65537 {
        NoOverflow(fed);
        ExactUntilOverflow(fed);
      }
      while total >= 0x1_0000
        invariant Norm(total) == Norm(start)
        decreases total
      {
        FoldKeepsNorm(total);
        total := total % 0x1_0000 + total / 0x1_0000;
      }
      NormSmall(total);
      r := 0xffff - total;
    }
  }

  lemma NormSmall(n: nat)
    requires n < 0x1_0000
    ensures Norm(n) == n
  {
  }

  lemma Concat3(a: seq<byte>, b: seq<byte>, c: seq<byte>)
    ensures a + b + c == a + (b + c)
  {
  }

  lemma {:induction false} TotalIsWordSum(s: seq<byte>, sum: u32, odd: bool, last: byte)
    requires Tracks(sum, last, odd, s)
    ensures (if odd then Plus(sum, Word(last, 0)) else sum) == WordSum(s) % M32
  {
    if odd {
      var t := s[..|s| - 1];
      assert s == t + [last];
      EvenSumOdd(t, last);
      PlusIsSum(EvenSum(s), Word(last, 0));
    } else {
      assert s[..|s|] == s;
    }
  }

  lemma FoldKeepsNorm(n: nat)
    ensures Norm(n % 0x1_0000 + n / 0x1_0000) == Norm(n)
  {
    assert n == n / 0x1_0000 * 0x1_0000 + n % 0x1_0000;
  }

  // ---------------------------------------------------------------------------------------------
  // Verification of a message that carries its own checksum

  /** A message with the two bytes at i replaced by the number x. */
  function WithWord(s: seq<byte>, i: nat, x: u16): seq<byte>
    requires i + 2 <= |s|
  {
    s[..i] + Bytes16(x) + s[i + 2..]
  }

  lemma {:induction false} WordSumWithWord(s: seq<byte>, i: nat, x: u16)
    requires i % 2 == 0 && i + 2 <= |s|
    ensures WordSum(WithWord(s, i, x)) == WordSum(WithWord(s, i, 0)) + x
  {
    var head, tail := s[..i], s[i + 2..];
    forall y: u16
      ensures WordSum(WithWord(s, i, y)) == WordSum(head) + y + WordSum(tail)
    {
      WordSumConcat(head, Bytes16(y) + tail);
      WordSumConcat(Bytes16(y), tail);
      Concat3(head, Bytes16(y), tail);
      WordOfBytes(y);
      assert Bytes16(y)[2..] == [];
    }
  }

  lemma NormComplement(n: nat)
    ensures Norm(n + (0xffff - Norm(n))) == 0xffff
  {
  }

  /** A message sums to zero on verification exactly when its checksum field holds the checksum taken with the field
      zero, or the other zero in its place. */
  lemma {:induction false} SelfVerifies(s: seq<byte>, i: nat, x: u16)
    requires i % 2 == 0 && i + 2 <= |s|
    ensures Rfc1071(WithWord(s, i, x)) == 0 <==>
              x == Rfc1071(WithWord(s, i, 0)) || (x == 0xffff && Rfc1071(WithWord(s, i, 0)) == 0)
  {
    var zeroed := WithWord(s, i, 0);
    OnesSumIsNorm(zeroed);
    OnesSumIsNorm(WithWord(s, i, x));
    WordSumWithWord(s, i, x);
    NormComplement(WordSum(zeroed));
    NormAdd(x, WordSum(zeroed));
  }

  /** The example of section 3 of RFC 1071, and its first five bytes: a last odd byte is the high one of its word. */
  lemma {:induction false} Rfc1071Examples()
    ensures Rfc1071([0, 1, 0xf2, 3, 0xf4, 0xf5, 0xf6, 0xf7]) == 0xffff - 0xddf2
    ensures Rfc1071([0, 1, 0xf2, 3, 0xf4]) == 0xffff - 0xe605
  {
    var s: seq<byte> := [0, 1, 0xf2, 3, 0xf4, 0xf5, 0xf6, 0xf7];
    assert s[2..][2..] == s[4..] && s[4..][2..] == s[6..] && s[6..][2..] == [];
    assert OnesSum(s[6..]) == 0xf6f7 && OnesSum(s[4..]) == 0xebed && OnesSum(s[2..]) == 0xddf1;
    var t: seq<byte> := [0, 1, 0xf2, 3, 0xf4];
    assert t[2..][2..] == t[4..];
    assert OnesSum(t[4..]) == 0xf400 && OnesSum(t[2..]) == 0xe604;
  }
}
