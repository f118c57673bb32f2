/** Which domains can be made into names (NewName in eth/dns/types.go), said of the domain's bytes. */
module DnsDomains {
  import opened Rings
  import opened Checksum
  import opened DnsNames

  /** A domain that ends in a dot: no dot comes first, after another or after a zero byte, and among any 64 bytes in a
      row there is one. */
  predicate WellDotted(d: seq<byte>) {
    && (forall j :: 0 <= j < |d| && d[j] == DOT ==> j > 0 && d[j - 1] != DOT && d[j - 1] != 0)
    && (forall i :: 0 <= i <= |d| - 64 ==> DotSoon(d, i))
  }

  predicate DotSoon(d: seq<byte>, i: nat)
    requires i + 64 <= |d|
  {
    exists j :: i <= j < i + 64 && d[j] == DOT
  }

  /** The length of a name that holds the first pos bytes of a domain, dots included. */
  predicate Reaches(name: seq<byte>, pos: nat) {
    if pos == 0 then name == [] else |name| == pos + 1 && name[pos] == 0
  }

  lemma {:induction false} FirstStretch(d: seq<byte>, l: seq<byte>, rest: seq<byte>)
    requires d == l + [DOT] + rest && DOT !in l
    ensures WellDotted(d) <==> 1 <= |l| <= 63 && l[|l| - 1] != 0 && WellDotted(rest)
  {
    var n := |l|;
    assert d[n] == DOT && (forall j :: 0 <= j < n ==> d[j] == l[j]);
    assert forall j :: 0 <= j < |rest| ==> d[n + 1 + j] == rest[j];
    if WellDotted(d) {
      assert n > 63 ==> DotSoon(d, 0);
      RestDotted(d, rest, n + 1);
    } else if 1 <= n <= 63 && l[n - 1] != 0 && WellDotted(rest) {
      WholeDotted(d, l, rest);
      assert false;
    }
  }

  lemma {:induction false} RestDotted(d: seq<byte>, rest: seq<byte>, n: nat)
    requires 0 < n <= |d| && d[n..] == rest && d[n - 1] == DOT && WellDotted(d)
    ensures WellDotted(rest)
  {
    forall j | 0 <= j < |rest| && rest[j] == DOT
      ensures j > 0 && rest[j - 1] != DOT && rest[j - 1] != 0
    {
      assert d[n + j] == rest[j];
      if j > 0 {
        assert d[n + j - 1] == rest[j - 1];
      }
    }
    forall i | 0 <= i <= |rest| - 64
      ensures DotSoon(rest, i)
    {
      assert DotSoon(d, n + i);
      var j :| n + i <= j < n + i + 64 && d[j] == DOT;
      assert rest[j - n] == DOT;
    }
  }

  lemma {:induction false} WholeDotted(d: seq<byte>, l: seq<byte>, rest: seq<byte>)
    requires d == l + [DOT] + rest && DOT !in l
    requires 1 <= |l| <= 63 && l[|l| - 1] != 0 && WellDotted(rest)
    ensures WellDotted(d)
  {
    var n := |l|;
    assert forall j :: 0 <= j < n ==> d[j] == l[j] && l[j] != DOT;
    forall j | 0 <= j < |d| && d[j] == DOT
      ensures j > 0 && d[j - 1] != DOT && d[j - 1] != 0
    {
      if j == n {
        assert d[j - 1] == l[n - 1];
      } else if j > n {
        assert d[j] == rest[j - n - 1];
        assert d[j - 1] == rest[j - n - 2];
      }
    }
    forall i | 0 <= i <= |d| - 64
      ensures DotSoon(d, i)
    {
      if i <= n {
        assert d[n] == DOT;
      } else {
        assert DotSoon(rest, i - n - 1);
        var j :| i - n - 1 <= j < i - n - 1 + 64 && rest[j] == DOT;
        assert d[j + n + 1] == DOT;
      }
    }
  }

  /** Adding a label is possible exactly within the bounds, and takes the name further by the label and its dot. */
  lemma {:induction false} LabelAdded(name: seq<byte>, pos: nat, l: seq<byte>)
    requires Reaches(name, pos) && DOT !in l
    ensures CanAddLabel(name, l) <==> 1 <= |l| <= 63 && l[|l| - 1] != 0 && pos + |l| + 1 <= 253
    ensures CanAddLabel(name, l) ==> Reaches(AddLabel(name, l), pos + |l| + 1)
  {
  }

  /** The domain is empty, or well dotted and short enough. */
  predicate Fits(pos: nat, domain: seq<byte>) {
    domain == [] || (WellDotted(Canonical(domain)) && pos + |Canonical(domain)| <= 253)
  }

  lemma {:induction false} BuildIff(name: seq<byte>, pos: nat, domain: seq<byte>)
    requires Reaches(name, pos)
    ensures Build(name, domain).Made? <==> Fits(pos, domain)
    decreases |domain|
  {
    if domain != [] {
      var i := IndexDot(domain);
      var l := domain[..i];
      LabelAdded(name, pos, l);
      if i < |domain| {
        FitsMore(pos, domain, i);
        if CanAddLabel(name, l) {
          BuildIff(AddLabel(name, l), pos + i + 1, domain[i + 1..]);
        }
      } else {
        FitsLast(pos, domain);
        assert l == domain;
      }
    }
  }

  lemma {:induction false} FitsMore(pos: nat, domain: seq<byte>, i: nat)
    requires i < |domain| && domain[i] == DOT && DOT !in domain[..i]
    ensures var l, rest := domain[..i], domain[i + 1..];
            Fits(pos, domain) <==>
              1 <= |l| <= 63 && l[|l| - 1] != 0 && pos + |l| + 1 <= 253 && Fits(pos + i + 1, rest)
  {
    MoreStretches(domain, i);
    assert 1 <= i ==> domain[..i][i - 1] == domain[i - 1];
  }

  lemma {:induction false} FitsLast(pos: nat, domain: seq<byte>)
    requires domain != [] && DOT !in domain
    ensures Fits(pos, domain) <==> |domain| <= 63 && domain[|domain| - 1] != 0 && pos + |domain| + 1 <= 253
  {
    LastStretch(domain);
  }

  lemma {:induction false} MoreStretches(domain: seq<byte>, i: nat)
    requires i < |domain| && domain[i] == DOT && DOT !in domain[..i]
    ensures var c, rest := Canonical(domain), Canonical(domain[i + 1..]);
            && |c| == i + 1 + |rest|
            && (WellDotted(c) <==> 1 <= i <= 63 && domain[i - 1] != 0 && WellDotted(rest))
  {
    SplitAtDot(domain, i);
    FirstStretch(Canonical(domain), domain[..i], Canonical(domain[i + 1..]));
  }

  lemma {:induction false} LastStretch(domain: seq<byte>)
    requires domain != [] && DOT !in domain
    ensures WellDotted(Canonical(domain)) <==> |domain| <= 63 && domain[|domain| - 1] != 0
  {
    assert domain[|domain| - 1] != DOT;
    assert Canonical(domain) == domain + [DOT] + [];
    FirstStretch(Canonical(domain), domain, []);
  }

  /** NewName makes a name of the root, of the empty domain, and otherwise exactly of a domain which, with one dot at
      its end, has at most 253 bytes and is well dotted: between dots lie 1 to 63 bytes, the last of them not zero. */
  lemma {:induction false} NewNameIff(domain: seq<byte>)
    ensures NewName(domain).Made? <==>
              domain == [DOT] || domain == [] || (WellDotted(Canonical(domain)) && |Canonical(domain)| <= 253)
  {
    BuildIff([], 0, domain);
  }

  /** What it makes: one byte more than the dotted form, ending in a zero byte, with the length of each stretch before
      it instead of a dot behind it. */
  predicate Renders(data: seq<byte>, dotted: seq<byte>) {
    && |data| == |dotted| + 1 && data[|dotted|] == 0
    && (forall j :: 0 <= j < |dotted| && dotted[j] != DOT ==> data[j + 1] == dotted[j])
    && (forall i, j :: 0 <= i < j < |dotted| && StretchAt(dotted, i, j) ==> data[i] == j - i)
  }

  /** From i to j lies a longest stretch without dots. */
  predicate StretchAt(dotted: seq<byte>, i: int, j: int)
    requires 0 <= i < j < |dotted|
  {
    (i == 0 || dotted[i - 1] == DOT) && dotted[j] == DOT && forall k :: i <= k < j ==> dotted[k] != DOT
  }

  lemma {:induction false} EncodeRenders(ls: seq<seq<byte>>)
    requires GoodLabels(ls)
    ensures Renders(Encode(ls), Dotted(ls))
  {
    if ls != [] {
      EncodeRenders(ls[1..]);
      MoreRenders(ls[0], Encode(ls[1..]), Dotted(ls[1..]));
      assert Encode(ls) == [|ls[0]|] + ls[0] + Encode(ls[1..]);
    }
  }

  lemma {:induction false} MoreRenders(l: seq<byte>, data: seq<byte>, dotted: seq<byte>)
    requires GoodLabel(l) && Renders(data, dotted)
    ensures Renders([|l|] + l + data, l + [DOT] + dotted)
  {
    var n := |l|;
    var data', dotted' := [n] + l + data, l + [DOT] + dotted;
    forall j | 0 <= j < |dotted'| && dotted'[j] != DOT
      ensures data'[j + 1] == dotted'[j]
    {
      if j > n {
        assert dotted'[j] == dotted[j - n - 1] && data'[j + 1] == data[j - n];
      }
    }
    forall i, j | 0 <= i < j < |dotted'| && StretchAt(dotted', i, j)
      ensures data'[i] == j - i
    {
      if i > n {
        assert forall k :: 0 <= k < |dotted| ==> dotted'[k + n + 1] == dotted[k];
        assert i > n + 1 ==> dotted'[i - 1] == dotted[i - n - 2];
        assert StretchAt(dotted, i - n - 1, j - n - 1);
        assert data'[i] == data[i - n - 1];
      } else {
        FirstStretchEnds(l, dotted, i, j);
      }
    }
  }

  lemma {:induction false} FirstStretchEnds(l: seq<byte>, dotted: seq<byte>, i: int, j: int)
    requires GoodLabel(l) && 0 <= i <= |l| && i < j < |l| + 1 + |dotted| && StretchAt(l + [DOT] + dotted, i, j)
    ensures i == 0 && j == |l|
  {
    var d := l + [DOT] + dotted;
    assert forall k :: 0 <= k < |l| ==> d[k] == l[k] && d[k] != DOT;
    assert d[|l|] == DOT;
  }

  /** Every name but the root and the empty one renders its domain with one dot at the end. */
  lemma {:induction false} NewNameRenders(domain: seq<byte>)
    requires domain != [] && domain != [DOT] && NewName(domain).Made?
    ensures Renders(NewName(domain).data, Canonical(domain))
  {
    var ls := BuildHolds([], [], domain);
    assert Dotted([]) + Canonical(domain) == Canonical(domain);
    EncodeRenders(ls);
  }

  /** "example" makes a name; with a label of 64 bytes behind it, and for two dots, none can be made. */
  lemma {:induction false} DomainExamples(long: seq<byte>)
    requires |long| == 64 && DOT !in long
    ensures NewName([101, 120, 97, 109, 112, 108, 101]) == Made([7, 101, 120, 97, 109, 112, 108, 101, 0])
    ensures NewName([101, 120, 97, 109, 112, 108, 101, 46] + long) == CantAddLabel
    ensures NewName([]) == Made([]) && NewName([46, 46]) == CantAddLabel
  {
    OneStretch([101, 120, 97, 109, 112, 108, 101]);
    TooLong([101, 120, 97, 109, 112, 108, 101], long);
    assert [101, 120, 97, 109, 112, 108, 101] + [DOT] + long == [101, 120, 97, 109, 112, 108, 101, 46] + long;
    assert IndexDot([46, 46]) == 0;
  }

  lemma {:induction false} TooLong(l: seq<byte>, long: seq<byte>)
    requires |long| == 64 && DOT !in long
    ensures NewName(l + [DOT] + long) == CantAddLabel
  {
    var d := l + [DOT] + long;
    NewNameIff(d);
    var c := Canonical(d);
    assert d[|d| - 1] == long[63] && c == d + [DOT];
    assert forall j :: |l| + 1 <= j < |l| + 65 ==> c[j] == long[j - |l| - 1];
    assert !DotSoon(c, |l| + 1);
  }

  lemma {:induction false} OneStretch(l: seq<byte>)
    requires 1 <= |l| <= 63 && DOT !in l && l[|l| - 1] != 0
    ensures NewName(l) == Made([|l|] + l + [0])
  {
    assert l[..|l|] == l && [] + [|l|] + l + [0] == [|l|] + l + [0];
  }
}
