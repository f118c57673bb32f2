/** The byte ring buffer of a TCP connection (stacks/ring.go) and the queue it implements. */
module Rings {

  type byte = x: int | 0 <= x < 256

  function Min(a: nat, b: nat): nat {
    if a < b then a else b
  }

  /** Layout: with off == 0 or off < end the used bytes are buf[off..end]; otherwise they wrap around,
      and off == end != 0 means full. */
  function Used(buf: seq<byte>, off: nat, end: nat): (r: seq<byte>)
    requires end <= |buf| && (off < |buf| || off == 0)
    ensures |r| <= |buf|
  {
    if off == 0 || off < end then buf[off..end] else buf[off..] + buf[..end]
  }

  /** The buffer with src copied over it from position at on. */
  function Put(buf: seq<byte>, at: nat, src: seq<byte>): (r: seq<byte>)
    requires at + |src| <= |buf|
    ensures |r| == |buf|
  {
    buf[..at] + src + buf[at + |src|..]
  }

  /** Indices that have run off the end go back to the start; equal indices mean empty. */
  function Settle(len: nat, off: nat, end: nat): (nat, nat) {
    var e := if end == len then 0 else end;
    var o := if off == len then 0 else off;
    if o == e then (0, 0) else (o, e)
  }

  lemma {:induction false} WriteInMiddle(buf: seq<byte>, off: nat, end: nat, b: seq<byte>)
    requires end < off < |buf| && |b| <= off - end
    ensures Used(Put(buf, end, b), off, end + |b|) == Used(buf, off, end) + b
  {
    var buf' := Put(buf, end, b);
    assert buf'[off..] == buf[off..];
    assert buf'[..end + |b|] == buf[..end] + b;
  }

  lemma {:induction false} WriteAtEnd(buf: seq<byte>, off: nat, end: nat, b: seq<byte>)
    requires off <= end <= |buf| && (off < |buf| || off == 0) && end + |b| <= |buf|
    requires off == end != 0 ==> b == []
    ensures Used(Put(buf, end, b), off, end + |b|) == Used(buf, off, end) + b
  {
    var buf' := Put(buf, end, b);
    if off == 0 || off < end {
      assert buf'[off..end + |b|] == buf[off..end] + b;
    } else {
      assert buf' == buf;
    }
  }

  lemma {:induction false} PutAtEnd(buf: seq<byte>, off: nat, end: nat, b: seq<byte>)
    requires off <= end <= |buf| && end + |b| == |buf|
    ensures Put(buf, end, b)[off..] == buf[off..end] + b
  {
    assert Put(buf, end, b) == buf[..end] + b;
  }

  lemma {:induction false} PutAtStart(buf: seq<byte>, off: nat, b: seq<byte>)
    requires |b| <= off <= |buf|
    ensures Put(buf, 0, b)[off..] == buf[off..] && Put(buf, 0, b)[..|b|] == b
  {
    assert Put(buf, 0, b) == b + buf[|b|..];
  }

  lemma {:induction false} WriteAround(buf: seq<byte>, off: nat, end: nat, b: seq<byte>, b': seq<byte>)
    requires 0 < off < end <= |buf| && end + |b| == |buf| && |b'| <= off
    ensures Used(Put(Put(buf, end, b), 0, b'), off, |b'|) == Used(buf, off, end) + (b + b')
  {
    var buf1 := Put(buf, end, b);
    PutAtEnd(buf, off, end, b);
    PutAtStart(buf1, off, b');
    var x := buf[off..end];
    assert Used(Put(buf1, 0, b'), off, |b'|) == (x + b) + b';
    assert (x + b) + b' == x + (b + b');
  }

  lemma {:induction false} PutTwice(d: seq<byte>, x: seq<byte>, y: seq<byte>)
    requires |x| + |y| <= |d|
    ensures Put(Put(d, 0, x), |x|, y) == Put(d, 0, x + y)
  {
    var d1 := Put(d, 0, x);
    assert d1[..|x|] == x;
    assert d1[|x| + |y|..] == d[|x| + |y|..];
  }

  lemma {:induction false} ReadStraight(buf: seq<byte>, off: nat, end: nat, n: nat)
    requires off < end <= |buf| && n <= end - off
    ensures var (o, e) := Settle(|buf|, off + n, end);
            Used(buf, o, e) == if n == 0 && end - off == |buf| then [] else Used(buf, off, end)[n..]
  {
  }

  /** Where a read of n bytes into a destination of the given size leaves the offset, before it settles. */
  function NextOff(len: nat, off: nat, n: nat, room: nat): nat
    requires off <= len && n <= room && (n < room ==> len - off <= n)
  {
    if n <= len - off && n == room then off + n else n - (len - off)
  }

  lemma {:induction false} ReadWrapped(buf: seq<byte>, off: nat, end: nat, n: nat, room: nat)
    requires 0 < off < |buf| && end <= off && n == Min(room, |buf| - off + end)
    ensures var (o, e) := Settle(|buf|, NextOff(|buf|, off, n, room), end);
            Used(buf, o, e) == if room == 0 && off == end then [] else Used(buf, off, end)[n..]
  {
    var next := NextOff(|buf|, off, n, room);
    if n < |buf| - off {
      assert room == n && next == off + n;
      ReadBeforeWrap(buf, off, end, n);
    } else {
      var k := n - (|buf| - off);
      assert next == k || (k == 0 && next == |buf|);
      WrapsTo(|buf|, k, next, end);
      ReadPastWrap(buf, off, end, k);
    }
  }

  lemma {:induction false} WrapsTo(len: nat, k: nat, next: nat, end: nat)
    requires next == k || (k == 0 && next == len)
    ensures Settle(len, next, end) == Settle(len, k, end)
  {
  }

  lemma {:induction false} ReadBeforeWrap(buf: seq<byte>, off: nat, end: nat, n: nat)
    requires 0 < off < |buf| && end <= off && n < |buf| - off
    ensures var (o, e) := Settle(|buf|, off + n, end);
            Used(buf, o, e) == if n == 0 && off == end then [] else Used(buf, off, end)[n..]
  {
    assert Used(buf, off, end)[n..] == buf[off + n..] + buf[..end];
  }

  lemma {:induction false} ReadPastWrap(buf: seq<byte>, off: nat, end: nat, k: nat)
    requires 0 < off < |buf| && k <= end <= off
    ensures var (o, e) := Settle(|buf|, k, end);
            Used(buf, o, e) == Used(buf, off, end)[|buf| - off + k..]
  {
    var used := Used(buf, off, end);
    assert used == buf[off..] + buf[..end];
    assert used[|buf| - off + k..] == buf[k..end];
    if k == end {
      assert buf[k..end] == [];
    }
  }

  lemma {:induction false} AheadPrefix(buf: seq<byte>, off: nat, end: nat, n: nat)
    requires off < end <= |buf| && n <= end - off
    ensures Used(buf, off, end)[..n] == buf[off..off + n]
  {
  }

  lemma {:induction false} DrainFirst(buf: seq<byte>, off: nat, end: nat, n: nat)
    requires 0 < off < |buf| && end <= off && n <= |buf| - off
    ensures Used(buf, off, end)[..n] == buf[off..off + n]
  {
  }

  lemma {:induction false} DrainBoth(buf: seq<byte>, off: nat, end: nat, n: nat, d: seq<byte>)
    requires 0 < off < |buf| && end <= off && n <= end && |buf| - off + n <= |d|
    ensures Put(Put(d, 0, buf[off..|buf|]), |buf| - off, buf[0..n]) == Put(d, 0, Used(buf, off, end)[..|buf| - off + n])
  {
    PutTwice(d, buf[off..|buf|], buf[0..n]);
    assert Used(buf, off, end)[..|buf| - off + n] == buf[off..|buf|] + buf[0..n];
  }

  class Ring {
    const buf: array<byte>
    var off: int
    var end: int

    ghost predicate Valid()
      reads this
    {
      0 <= end <= buf.Length && 0 <= off && (off < buf.Length || off == 0)
    }

    /** The buffered bytes, oldest first. */
    ghost function Contents(): (s: seq<byte>)
      reads this, buf
      requires Valid()
    {
      Used(buf[..], off, end)
    }

    constructor (capacity: nat)
      ensures Valid() && fresh(buf) && buf.Length == capacity && Contents() == []
    {
      buf := new byte[capacity];
      off, end := 0, 0;
    }

    method Reset()
      requires Valid()
      modifies this
      ensures Valid() && Contents() == []
    {
      off, end := 0, 0;
    }

    /** Free and buffered bytes always make up the capacity. */
    method Free() returns (n: int)
      requires Valid()
      ensures n == buf.Length - |Contents()|
    {
      if off == 0 {
        return buf.Length - end;
      }
      if off < end {
        var startFree := off;
        var endFree := buf.Length - end;
        return startFree + endFree;
      }
      return off - end;
    }

    method Buffered() returns (n: int)
      requires Valid()
      ensures n == |Contents()|
    {
      var free := Free();
      return buf.Length - free;
    }

    method MidFree() returns (n: int)
      requires Valid()
      ensures n == if end >= off then 0 else off - end
    {
      if end >= off {
        return 0;
      }
      return off - end;
    }

    /** The built-in copy, into buf from position at on. */
    method CopyIn(at: nat, src: seq<byte>)
      requires at + |src| <= buf.Length
      modifies buf
      ensures buf[..] == Put(old(buf[..]), at, src)
    {
      forall i | 0 <= i < |src| {
        buf[at + i] := src[i];
      }
    }

    /** Appends all of b, or nothing when it does not fit. */
    method Write(b: seq<byte>) returns (n: nat, full: bool)
      requires Valid()
      modifies this, buf
      ensures Valid()
      ensures full <==> |b| > buf.Length - |old(Contents())|
      ensures full ==> n == 0 && unchanged(this) && Contents() == old(Contents())
      ensures !full ==> n == |b| && Contents() == old(Contents()) + b
    {
      ghost var was := buf[..];
      var free := Free();
      if |b| > free {
        return 0, true;
      }
      var midFree := MidFree();
      if midFree > 0 {
        n := Min(off - end, |b|);
        assert b[..n] == b;
        WriteInMiddle(was, off, end, b);
        CopyIn(end, b[..n]);
        end := end + n;
        return n, false;
      }
      n := WriteAhead(b);
      return n, false;
    }

    /** Writing where what is buffered does not wrap around: to the end of buf and on from its start. */
    method WriteAhead(b: seq<byte>) returns (n: nat)
      requires Valid() && off <= end && |b| <= buf.Length - |Contents()|
      modifies this, buf
      ensures Valid() && n == |b| && Contents() == old(Contents()) + b
    {
      ghost var was := buf[..];
      n := Min(buf.Length - end, |b|);
      ghost var start := end;
      CopyIn(end, b[..n]);
      end := end + n;
      if n < |b| {
        var n2 := Min(buf.Length, |b| - n);
        assert b[..n] + b[n..n + n2] == b;
        WriteAround(was, off, start, b[..n], b[n..n + n2]);
        CopyIn(0, b[n..n + n2]);
        end := n2;
        n := n + n2;
      } else {
        assert b[..n] == b;
        WriteAtEnd(was, off, start, b);
      }
    }

    method OnReadEnd()
      requires 0 <= end <= buf.Length && 0 <= off <= buf.Length
      modifies this
      ensures Valid() && (off, end) == Settle(buf.Length, old(off), old(end))
    {
      if end == buf.Length {
        end := 0;
      }
      if off == buf.Length {
        off := 0;
      }
      if off == end {
        Reset();
      }
    }

    /** The built-in copy, out of buf from position at on. */
    method CopyOut(dst: array<byte>, to: nat, at: nat, n: nat)
      requires to + n <= dst.Length && at + n <= buf.Length && dst != buf
      modifies dst
      ensures buf[..] == old(buf[..])
      ensures dst[..] == Put(old(dst[..]), to, buf[..][at..at + n])
    {
      forall i | 0 <= i < n {
        dst[to + i] := buf[at + i];
      }
    }

    /** Removes the oldest bytes, as many as there are and dst has room for, into dst. With an empty
        destination nothing is read, but a full ring loses everything it holds. */
    method Read(dst: array<byte>) returns (n: nat, eof: bool)
      requires Valid() && dst != buf
      modifies this, dst
      ensures Valid()
      ensures eof <==> old(Contents()) == []
      ensures n == Min(dst.Length, |old(Contents())|)
      ensures dst[..] == Put(old(dst[..]), 0, old(Contents())[..n])
      ensures Contents() == if dst.Length == 0 && |old(Contents())| == buf.Length then [] else old(Contents())[n..]
    {
      var buffered := Buffered();
      if buffered == 0 {
        return 0, true;
      }
      if end > off {
        n := ReadAhead(dst);
        return n, false;
      }
      n := ReadAround(dst);
      return n, false;
    }

    method ReadAhead(dst: array<byte>) returns (n: nat)
      requires Valid() && dst != buf && off < end
      modifies this, dst
      ensures Valid()
      ensures n == Min(dst.Length, |old(Contents())|)
      ensures dst[..] == Put(old(dst[..]), 0, old(Contents())[..n])
      ensures Contents() == if dst.Length == 0 && |old(Contents())| == buf.Length then [] else old(Contents())[n..]
    {
      ghost var bytes := buf[..];
      n := Min(dst.Length, end - off);
      CopyOut(dst, 0, off, n);
      AheadPrefix(bytes, off, end, n);
      ReadStraight(bytes, off, end, n);
      off := off + n;
      OnReadEnd();
      assert buf[..] == bytes;
    }

    /** The second half of the copying: what wraps around to the start of buf. */
    method DrainRest(dst: array<byte>, n: nat, ghost to: seq<byte>, ghost bytes: seq<byte>) returns (n2: nat)
      requires Valid() && dst != buf && 0 < off && end <= off && bytes == buf[..] && |to| == dst.Length
      requires n == buf.Length - off < dst.Length && dst[..] == Put(to, 0, bytes[off..|bytes|])
      modifies dst
      ensures n2 == Min(dst.Length - n, end) && buf[..] == bytes
      ensures dst[..] == Put(to, 0, Used(bytes, off, end)[..n + n2])
    {
      n2 := Min(dst.Length - n, end);
      DrainBoth(bytes, off, end, n2, to);
      CopyOut(dst, n, 0, n2);
    }

    /** The copying of a read that wraps around; off' is where the next read starts. */
    method Drain(dst: array<byte>) returns (n: nat, off': nat)
      requires Valid() && dst != buf && 0 < off && end <= off
      modifies dst
      ensures n == Min(dst.Length, |Contents()|) && buf[..] == old(buf[..])
      ensures dst[..] == Put(old(dst[..]), 0, old(Contents())[..n])
      ensures off' == NextOff(buf.Length, off, n, dst.Length)
    {
      ghost var bytes, to := buf[..], dst[..];
      n := Min(dst.Length, buf.Length - off);
      DrainFirst(bytes, off, end, n);
      CopyOut(dst, 0, off, n);
      off' := off + n;
      if n < dst.Length {
        var n2 := DrainRest(dst, n, to, bytes);
        off' := n2;
        n := n + n2;
      }
    }

    method ReadAround(dst: array<byte>) returns (n: nat)
      requires Valid() && dst != buf && 0 < off && end <= off
      modifies this, dst
      ensures Valid()
      ensures n == Min(dst.Length, |old(Contents())|)
      ensures dst[..] == Put(old(dst[..]), 0, old(Contents())[..n])
      ensures Contents() == if dst.Length == 0 && |old(Contents())| == buf.Length then [] else old(Contents())[n..]
    {
      ghost var bytes := buf[..];
      var off';
      n, off' := Drain(dst);
      assert buf[..] == bytes;
      ReadWrapped(bytes, off, end, n, dst.Length);
      off := off';
      OnReadEnd();
      assert buf[..] == bytes;
    }
  }
}
