/** encode_date and extract_date of mms_codec.c: a time_t of 64 bits as a Long-integer
    (section 8.4.2.1 of WAP-230-WSP). */
module Dates {
  import opened Common
  import opened Wsp
  import opened FileBuffer

  const HEADER_DATE: Byte := 0x05
  const TWO_31: nat := 0x8000_0000
  const TWO_64: nat := 0x1_0000_0000_0000_0000

  type Time = t: int | -0x8000_0000_0000_0000 <= t < 0x8000_0000_0000_0000

  /** The same 64 bits without a sign. */
  function Bits(date: Time): nat {
    if date >= 0 then date else date + TWO_64
  }

  /** What is written: a length and the octets, most significant first. */
  function LongInteger(date: Time): (r: Bytes)
    ensures |r| <= 9
  {
    var octets := Octets(Bits(date));
    assert |octets| <= 8 by {
      EightOctets();
      OctetsLength(Bits(date), 8);
    }
    [|octets|] + octets
  }

  lemma EightOctets()
    ensures Power256(4) == 0x1_0000_0000 && Power256(8) == TWO_64
  {
    assert Power256(2) == 0x1_0000;
    assert Power256(4) == 0x1_0000_0000;
    assert Power256(6) == 0x1_0000_0000_0000;
  }

  /** What is made of the octets of a received value. */
  function Extract(octets: Bytes): Option<Time> {
    if |octets| > 4 then None
    else
      (assert Value(octets) % TWO_31 < TWO_31;
      Some(Value(octets) % TWO_31))
  }

  /** A date survives exactly when it is in the first 2^31 seconds. */
  lemma DateRoundTrip(date: Time)
    ensures Extract(Octets(Bits(date))) == Some(date) <==> 0 <= date < TWO_31
  {
    OctetsValue(Bits(date));
    EightOctets();
    OctetsLength(Bits(date), 8);
    OctetsLength(Bits(date), 4);
  }

  /** A reader takes the octets and nothing of what follows. */
  lemma DateRead(date: Time, rest: Bytes)
    ensures ReadValueLength(LongInteger(date) + rest)
      == Read(|Octets(Bits(date))|, Octets(Bits(date)) + rest)
  {
    var octets := Octets(Bits(date));
    assert (LongInteger(date) + rest)[1..] == octets + rest;
  }

  /** There are no fewer octets for the same 64 bits. */
  lemma {:induction false} DateShortest(date: Time, s: Bytes)
    requires s != [] && Value(s) == Bits(date)
    ensures |LongInteger(date)| <= 1 + |s|
    ensures |LongInteger(date)| >= 2 && LongInteger(date)[0] == |LongInteger(date)| - 1
  {
    OctetsMinimal(Bits(date), s);
  }

  // ------------------------------------------------------------------ in place

  lemma {:induction false} ValueFirst(b: Byte, s: Bytes)
    ensures Value([b] + s) == b * Power256(|s|) + Value(s)
  {
    var all := [b] + s;
    if s == [] {
      assert Value(all[..0]) == 0;
    } else {
      var front := s[..|s| - 1];
      ValueFirst(b, front);
      assert all[..|s|] == [b] + front;
    }
  }

  /** Octets without a leading zero are the shortest ones. */
  lemma {:induction false} ShortestIs(s: Bytes)
    requires s != [] && (|s| == 1 || s[0] != 0)
    ensures Octets(Value(s)) == s
    decreases |s|
  {
    var front := s[..|s| - 1];
    assert s == front + [s[|s| - 1]];
    if |s| > 1 {
      ShortestIs(front);
      ValuePositive(front);
    } else {
      assert Value(front) == 0;
    }
  }

  lemma {:induction false} ValuePositive(s: Bytes)
    requires s != [] && s[0] != 0
    ensures Value(s) > 0
  {
    if |s| > 1 {
      ValuePositive(s[..|s| - 1]);
    }
  }

  method EncodeDate(fb: Buffer, date: Time) returns (ok: bool)
    requires fb.Valid()
    modifies fb, fb.buf
    ensures ok ==> fb.Valid()
    ensures ok ==> fb.Contents() == old(fb.Contents()) + [Token(HEADER_DATE)] + LongInteger(date)
    ensures old(fb.Capacity()) >= 0 ==> ok
  {
    var octets := ShortOctets(date);
    ok := fb.PutField(HEADER_DATE, [|octets|] + octets);
  }

  method ShortOctets(date: Time) returns (short: Bytes)
    ensures |short| <= 8 && short == Octets(Bits(date))
  {
    var octets := FillOctets(date);
    var i := 0;
    while i < 7 && octets[i] == 0
      invariant i <= 7
      invariant Value(octets[i..]) == Bits(date)
    {
      ValueFirst(octets[i], octets[i + 1..]);
      assert octets[i..] == [octets[i]] + octets[i + 1..];
      i := i + 1;
    }
    ShortestIs(octets[i..]);
    short := octets[i..];
  }

  /** The eight octets of the date, from the last one to the first. */
  method FillOctets(date: Time) returns (octets: Bytes)
    ensures |octets| == 8 && Value(octets) == Bits(date)
  {
    octets := [0, 0, 0, 0, 0, 0, 0, 0];
    var rest: int := date;
    var i := 8;
    while i > 0
      invariant 0 <= i <= 8 && |octets| == 8
      invariant date == rest * Power256(8 - i) + Value(octets[i..])
    {
      ghost var tail := octets[i..];
      i := i - 1;
      octets := octets[i := rest % 256];
      assert octets[i..] == [octets[i]] + tail;
      ValueFirst(octets[i], tail);
      NextOctet(rest, Power256(7 - i));
      rest := rest / 256;
    }
    EightOctets();
    ValueBound(octets);
    assert octets[0..] == octets;
  }

  lemma NextOctet(rest: int, power: nat)
    ensures rest * power == (rest / 256) * (256 * power) + (rest % 256) * power
  {
    var q, r := rest / 256, rest % 256;
    assert rest == 256 * q + r;
    assert (256 * q + r) * power == 256 * q * power + r * power;
  }

  method ExtractDate(p: Bytes) returns (date: Option<Time>)
    ensures date == Extract(p)
  {
    if |p| > 4 {
      return None;
    }
    var out := 0;
    for i := 0 to |p|
      invariant out == Value(p[..i])
    {
      assert p[..i + 1][..i] == p[..i];
      out := out * 256 + p[i];
    }
    assert p[..|p|] == p;
    assert out % TWO_31 < TWO_31;
    date := Some(out % TWO_31);
  }
}
