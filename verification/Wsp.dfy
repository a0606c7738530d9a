/** The pieces of the WSP encoding (WAP-230-WSP) that mms_codec.c relies on: uintvar
    (section 8.1.2), Value-length (section 8.4.2.2) and multi-octet integers (section
    8.4.2.1), each with the reader that takes it off the front of what it is given. */
module Wsp {
  import opened Common

  type Bytes = seq<Byte>

  datatype Read = Broken | Read(value: nat, rest: Bytes)

  // ------------------------------------------------------------------- uintvar

  /** Groups of seven bits, most significant first, all of them marked "more follows". */
  function Continued(v: nat): Bytes {
    if v < 128 then [128 + v] else Continued(v / 128) + [128 + v % 128]
  }

  function Uintvar(v: nat): Bytes {
    if v < 128 then [v] else Continued(v / 128) + [v % 128]
  }

  function ReadMore(acc: nat, s: Bytes): (r: Read)
    ensures r.Read? ==> |r.rest| < |s|
    decreases |s|
  {
    if s == [] then Broken
    else if s[0] < 128 then Read(acc * 128 + s[0], s[1..])
    else ReadMore(acc * 128 + (s[0] - 128), s[1..])
  }

  function ReadUintvar(s: Bytes): (r: Read)
    ensures r.Read? ==> |r.rest| < |s|
  {
    ReadMore(0, s)
  }

  /** The value reached after the continued groups of `v`, starting from nothing. */
  lemma {:induction false} ReadContinued(v: nat, s: Bytes)
    ensures ReadMore(0, Continued(v) + s) == ReadMore(v, s)
  {
    if v < 128 {
      assert (Continued(v) + s)[1..] == s;
    } else {
      var last := [128 + v % 128];
      assert Continued(v) + s == Continued(v / 128) + (last + s);
      ReadContinued(v / 128, last + s);
      assert (last + s)[1..] == s;
    }
  }

  lemma UintvarRoundTrip(v: nat, rest: Bytes)
    ensures ReadUintvar(Uintvar(v) + rest) == Read(v, rest)
  {
    if v < 128 {
      assert (Uintvar(v) + rest)[1..] == rest;
    } else {
      var last := [v % 128];
      assert Uintvar(v) + rest == Continued(v / 128) + (last + rest);
      ReadContinued(v / 128, last + rest);
      assert (last + rest)[1..] == rest;
    }
  }

  function Power128(n: nat): nat {
    if n == 0 then 1 else 128 * Power128(n - 1)
  }

  lemma {:induction false} GroupsLength(v: nat, n: nat)
    requires 1 <= n && v < Power128(n)
    ensures |Continued(v)| <= n
  {
    if v >= 128 {
      GroupsLength(v / 128, n - 1);
    }
  }

  lemma UintvarFits(v: nat)
    requires v < 0x1_0000_0000
    ensures 1 <= |Uintvar(v)| <= 5
  {
    assert |Uintvar(v)| == |Continued(v)|;
    assert Power128(2) == 16384;
    assert Power128(4) == 268435456;
    GroupsLength(v, 5);
  }

  lemma GroupBound(acc: nat, x: nat, p: nat)
    requires x < 128
    ensures (acc * 128 + x + 1) * p <= (acc + 1) * (128 * p)
  {
    assert (acc * 128 + x + 1) <= (acc + 1) * 128;
    assert (acc * 128 + x + 1) * p <= ((acc + 1) * 128) * p == (acc + 1) * (128 * p);
  }

  /** So many octets cannot stand for more than that. */
  lemma {:induction false} ReadBound(acc: nat, s: Bytes)
    ensures ReadMore(acc, s).Read? ==>
      ReadMore(acc, s).value + 1 <= (acc + 1) * Power128(|s| - |ReadMore(acc, s).rest|)
    decreases |s|
  {
    if s != [] {
      if s[0] < 128 {
        assert Power128(1) == 128;
        GroupBound(acc, s[0], 1);
      } else {
        var next := acc * 128 + (s[0] - 128);
        ReadBound(next, s[1..]);
        if ReadMore(next, s[1..]).Read? {
          GroupBound(acc, s[0] - 128, Power128(|s| - 1 - |ReadMore(next, s[1..]).rest|));
        }
      }
    }
  }

  /** No fewer octets are read as the same number. */
  lemma UintvarShortest(v: nat, s: Bytes)
    requires ReadUintvar(s).Read? && ReadUintvar(s).value == v
    ensures |Uintvar(v)| <= |s| - |ReadUintvar(s).rest|
  {
    ReadBound(0, s);
    assert |Uintvar(v)| == |Continued(v)|;
    GroupsLength(v, |s| - |ReadUintvar(s).rest|);
  }

  // -------------------------------------------------------------- Value-length

  function ValueLength(v: nat): Bytes {
    if v <= 30 then [v] else [31] + Uintvar(v)
  }

  function ReadValueLength(s: Bytes): (r: Read)
    ensures r.Read? ==> |r.rest| < |s|
  {
    if s == [] || s[0] > 31 then Broken
    else if s[0] <= 30 then Read(s[0], s[1..])
    else ReadUintvar(s[1..])
  }

  lemma ValueLengthRoundTrip(v: nat, rest: Bytes)
    ensures ReadValueLength(ValueLength(v) + rest) == Read(v, rest)
  {
    if v <= 30 {
      assert (ValueLength(v) + rest)[1..] == rest;
    } else {
      assert (ValueLength(v) + rest)[1..] == Uintvar(v) + rest;
      UintvarRoundTrip(v, rest);
    }
  }

  /** The short form is used whenever it can be. */
  lemma ValueLengthShort(v: nat)
    ensures |ValueLength(v)| == 1 <==> v <= 30
  {
    assert |Uintvar(v)| >= 1;
  }

  // ------------------------------------------------------ multi-octet integers

  /** The number that octets stand for, most significant first. */
  function Value(s: Bytes): nat {
    if s == [] then 0 else Value(s[..|s| - 1]) * 256 + s[|s| - 1]
  }

  function Octets(v: nat): Bytes {
    if v < 256 then [v] else Octets(v / 256) + [v % 256]
  }

  lemma {:induction false} OctetsValue(v: nat)
    ensures Value(Octets(v)) == v
  {
    if v >= 256 {
      OctetsValue(v / 256);
      assert Octets(v)[..|Octets(v)| - 1] == Octets(v / 256);
    }
  }

  function Power256(n: nat): nat {
    if n == 0 then 1 else 256 * Power256(n - 1)
  }

  lemma {:induction false} ValueBound(s: Bytes)
    ensures Value(s) < Power256(|s|)
  {
    if s != [] {
      ValueBound(s[..|s| - 1]);
    }
  }

  /** How many octets it takes. */
  lemma {:induction false} OctetsLength(v: nat, n: nat)
    requires n >= 1
    ensures |Octets(v)| <= n <==> v < Power256(n)
    decreases n
  {
    if v < 256 {
      PowerGrows(n);
    } else if n == 1 {
    } else {
      OctetsLength(v / 256, n - 1);
    }
  }

  lemma {:induction false} PowerGrows(n: nat)
    requires n >= 1
    ensures Power256(n) >= 256
  {
    if n > 1 {
      PowerGrows(n - 1);
    }
  }

  /** No shorter sequence of octets stands for the same number. */
  lemma {:induction false} OctetsMinimal(v: nat, s: Bytes)
    requires s != [] && Value(s) == v
    ensures |Octets(v)| <= |s|
  {
    ValueBound(s);
    OctetsLength(v, |s|);
  }

  /** Integer-value (section 8.4.2.3): one octet, or a count and that many. */
  function ReadInteger(s: Bytes): (r: Read)
    ensures r.Read? ==> |r.rest| < |s|
  {
    if s == [] then Broken
    else if s[0] >= 128 then Read(s[0] - 128, s[1..])
    else if s[0] > 30 || s[0] >= |s| then Broken
    else Read(Value(s[1..s[0] + 1]), s[s[0] + 1..])
  }

  /** Without zeros in front, a number below 256 is one octet. */
  lemma {:induction false} NotLeadingZero(s: Bytes)
    requires s != [] && s[0] > 0
    ensures Value(s) < 256 ==> |s| == 1 && Value(s) == s[0]
    ensures Value(s) > 0
  {
    var front := s[..|s| - 1];
    if front != [] {
      NotLeadingZero(front);
    } else {
      assert Value(front) == 0;
    }
  }
}
