/** encode_content_type of mms_codec.c: the Content-Type header of a message, with the
    parameters of a multipart/related type. */
module ContentTypeHeader {
  import opened Common
  import opened Wsp
  import opened FileBuffer
  import opened MediaType
  import opened PartHeader

  const HEADER_CONTENT_TYPE: Byte := 0x04
  const TYPE: CString := [0x74, 0x79, 0x70, 0x65]
  const START: CString := [0x73, 0x74, 0x61, 0x72, 0x74]

  /** The token of a parameter that is encoded; the others are left out. */
  function ParameterToken(p: Parameter): Option<Byte> {
    if Named(p.attribute, TYPE) then Some(TYPE_CONTENT_TYPE)
    else if Named(p.attribute, START) then Some(TYPE_START)
    else None
  }

  function ParameterBytes(p: Parameter): Bytes {
    match ParameterToken(p)
    case Some(token) => Field(token, Raw(p.value) + [0])
    case None => []
  }

  function ParametersBytes(ps: seq<Parameter>): Bytes {
    if ps == [] then [] else ParametersBytes(ps[..|ps| - 1]) + ParameterBytes(ps[|ps| - 1])
  }

  function Value(t: Tables, m: Media): Bytes {
    TypeBytes(t, m.name) + ParametersBytes(m.parameters)
  }

  /** A well-known type alone is a short integer. */
  function Header(t: Tables, m: Media): Bytes {
    if |Value(t, m)| == 1 then Field(HEADER_CONTENT_TYPE, Value(t, m))
    else Field(HEADER_CONTENT_TYPE, ValueLength(|Value(t, m)|) + Value(t, m))
  }

  /** The header is two octets exactly when the type has a code and nothing is written with it. */
  lemma ShortHeader(t: Tables, m: Media)
    requires |m.name| > 1
    ensures |Header(t, m)| == 2 <==> TypeCode(t, m.name).Some? && ParametersBytes(m.parameters) == []
  {
    hide ParametersBytes, Uintvar;
  }

  /** A name of one character cannot come from the parser. */
  lemma ShortIsCode(t: Tables, m: Media)
    requires |m.name| > 0 && |Value(t, m)| == 1
    ensures TypeCode(t, m.name).Some? && Value(t, m) == [Token(TypeCode(t, m.name).value)]
  {
  }

  /** Whatever parameters there are and however often: a reader of the header takes exactly
      the type and the parameters, and goes on behind them. */
  lemma ValueSpan(t: Tables, m: Media, rest: Bytes)
    requires |m.name| > 0
    ensures TakeValue(Header(t, m)[1..] + rest) == Taken(Value(t, m), rest)
  {
    hide ParametersBytes, TypeBytes, TakeValue, ValueLength, Value;
    var value := Value(t, m);
    if |value| == 1 {
      ShortIsCode(t, m);
      BehindToken(HEADER_CONTENT_TYPE, value);
      ShortTaken(TypeCode(t, m.name).value, rest);
    } else {
      CountedIsValue(value, rest);
      BehindToken(HEADER_CONTENT_TYPE, ValueLength(|value|) + value);
      assert ValueLength(|value|) + value + rest == ValueLength(|value|) + (value + rest);
    }
  }

  /** A type and a start parameter, in whatever case, are the ones that a receiver gets. */
  function SentOne(p: Parameter): seq<TypeParameter> {
    if Named(p.attribute, TYPE) then [TextIs(Token(TYPE_CONTENT_TYPE), Unquoted(p.value))]
    else if Named(p.attribute, START) then [TextIs(Token(TYPE_START), Unquoted(p.value))]
    else []
  }

  function SentCoded(ps: seq<Parameter>): seq<TypeParameter> {
    if ps == [] then [] else SentCoded(ps[..|ps| - 1]) + SentOne(ps[|ps| - 1])
  }

  function AllBefore(front: seq<TypeParameter>, others: Option<seq<TypeParameter>>): Option<seq<TypeParameter>> {
    match others
    case None => None
    case Some(ps) => Some(front + ps)
  }

  lemma AllBeforeBoth(a: seq<TypeParameter>, p: TypeParameter, others: Option<seq<TypeParameter>>)
    ensures AllBefore(a, Before(p, others)) == AllBefore(a + [p], others)
    ensures AllBefore([], others) == others && AllBefore(a + [], others) == AllBefore(a, others)
  {
    match others
    case None =>
    case Some(ps) =>
      Regroup(a, [p], ps);
      assert [] + ps == ps && a + [] == a;
  }

  lemma {:induction false} ParameterBack(p: Parameter, rest: Bytes)
    ensures TakeParameters(ParameterBytes(p) + rest) ==
      if SentOne(p) == [] then TakeParameters(rest) else Before(SentOne(p)[0], TakeParameters(rest))
    ensures |SentOne(p)| <= 1
  {
    hide Named, Unquoted, TakeText, TakeParameters;
    match ParameterToken(p)
    case None => assert [] + rest == rest;
    case Some(token) =>
      TextTakenBack(p.value, rest);
      TextParameterBack(token, Raw(p.value) + [0], Unquoted(p.value), rest);
  }

  lemma {:induction false} AllParametersBack(ps: seq<Parameter>, rest: Bytes)
    ensures TakeParameters(ParametersBytes(ps) + rest) == AllBefore(SentCoded(ps), TakeParameters(rest))
  {
    hide TakeParameters, ParameterBytes, SentOne;
    if ps == [] {
      assert [] + rest == rest;
      AllBeforeBoth([], CharsetIs(0), TakeParameters(rest));
    } else {
      var front, last := ps[..|ps| - 1], ps[|ps| - 1];
      AllParametersBack(front, ParameterBytes(last) + rest);
      Regroup(ParametersBytes(front), ParameterBytes(last), rest);
      ParameterBack(last, rest);
      var p := if SentOne(last) == [] then CharsetIs(0) else SentOne(last)[0];
      assert SentOne(last) == [] || SentOne(last) == [p];
      AllBeforeBoth(SentCoded(front), p, TakeParameters(rest));
    }
  }

  /** A receiver of the header gets the type, and all its type and start parameters in order,
      and goes on behind them. */
  lemma HeaderReads(n: Names, t: Tables, m: Media, rest: Bytes)
    requires IsName(m.name)
    ensures TakeValue(Header(t, m)[1..] + rest) == Taken(Value(t, m), rest)
    ensures ReadType(n, Value(t, m)) ==
      if Canonical(n, t, m.name).None? then None
      else Some(TypeRead(Canonical(n, t, m.name).value, SentCoded(m.parameters)))
  {
    hide TakeParameters, ParametersBytes, TypeBytes, IsName, TakeType, SentCoded, TakeValue, Header;
    NamePrintable(m.name);
    ValueSpan(t, m, rest);
    TypeBack(n, t, m.name, ParametersBytes(m.parameters));
    var none: Bytes := [];
    AllParametersBack(m.parameters, none);
    NoParameters();
    assert ParametersBytes(m.parameters) + none == ParametersBytes(m.parameters);
    assert SentCoded(m.parameters) + [] == SentCoded(m.parameters);
  }

  lemma BehindToken(token: Byte, value: Bytes)
    ensures Field(token, value)[1..] == value
  {
  }

  lemma ShortTaken(code: Byte, rest: Bytes)
    ensures TakeValue([Token(code)] + rest) == Taken([Token(code)], rest)
  {
    var s := [Token(code)] + rest;
    assert s[..1] == [Token(code)] && s[1..] == rest;
  }

  lemma NextBytes(ps: seq<Parameter>, i: nat)
    requires i < |ps|
    ensures ParametersBytes(ps[..i + 1]) == ParametersBytes(ps[..i]) + ParameterBytes(ps[i])
  {
    assert ps[..i + 1][..i] == ps[..i];
  }

  datatype Coded = Coded(token: Byte, value: CString)

  function CodedBytes(par: seq<Coded>): Bytes {
    if par == [] then []
    else CodedBytes(par[..|par| - 1]) + Field(par[|par| - 1].token, Raw(par[|par| - 1].value) + [0])
  }

  predicate ParametersFit(ps: seq<Parameter>) {
    forall k :: 0 <= k < |ps| && ParameterToken(ps[k]).Some? ==> |ps[k].value| + 2 <= FB_SIZE
  }

  predicate AllFit(par: seq<Coded>) {
    forall k :: 0 <= k < |par| ==> |par[k].value| + 2 <= FB_SIZE
  }

  /** The first loop: which parameters there are, and the length of it all. */
  method Measure(t: Tables, m: Media) returns (len: nat, par: seq<Coded>)
    ensures len == |Value(t, m)| && CodedBytes(par) == ParametersBytes(m.parameters)
    ensures AllFit(par) <==> ParametersFit(m.parameters)
  {
    hide TypeBytes, Token, Named, CodedBytes, ParametersBytes, Field;
    NoneCoded([]);
    assert m.parameters[..0] == [];
    len, par := |TypeBytes(t, m.name)|, [];
    var ps := m.parameters;
    for i := 0 to |ps|
      invariant CodedBytes(par) == ParametersBytes(ps[..i])
      invariant len == |TypeBytes(t, m.name)| + |CodedBytes(par)|
      invariant AllFit(par) <==> ParametersFit(ps[..i])
    {
      NextBytes(ps, i);
      NextFits(ps, i);
      var token := ParameterToken(ps[i]);
      if token.Some? {
        var one := Coded(token.value, ps[i].value);
        CodedLast(par, one);
        len := len + 1 + |ps[i].value| + 1;
        par := par + [one];
      }
    }
    assert ps[..|ps|] == ps;
  }

  lemma NextFits(ps: seq<Parameter>, i: nat)
    requires i < |ps|
    ensures ParametersFit(ps[..i + 1])
      <==> ParametersFit(ps[..i]) && (ParameterToken(ps[i]).Some? ==> |ps[i].value| + 2 <= FB_SIZE)
  {
    hide ParameterToken;
    assert ps[..i + 1] == ps[..i] + [ps[i]];
  }

  lemma {:induction false} CodedLast(par: seq<Coded>, one: Coded)
    ensures CodedBytes(par + [one]) == CodedBytes(par) + Field(one.token, Raw(one.value) + [0])
    ensures |Field(one.token, Raw(one.value) + [0])| == 1 + |one.value| + 1
    ensures AllFit(par + [one]) <==> AllFit(par) && |one.value| + 2 <= FB_SIZE
  {
    assert (par + [one])[..|par|] == par;
    assert (par + [one])[|par|] == one;
    assert forall k :: 0 <= k < |par| ==> (par + [one])[k] == par[k];
  }

  /** The second loop. */
  method WriteParameters(par: seq<Coded>, fb: Buffer) returns (ok: bool)
    requires fb.Valid()
    modifies fb, fb.buf
    ensures ok ==> fb.Valid() && AllFit(par) && fb.Contents() == old(fb.Contents()) + CodedBytes(par)
    ensures ok ==> fb.Capacity() == old(fb.Capacity()) - |CodedBytes(par)|
    ensures AllFit(par) ==> old(fb.Capacity()) >= |CodedBytes(par)| ==> ok
  {
    hide CodedBytes, Field, Token;
    ghost var before := fb.Contents();
    NoneCoded(par);
    for i := 0 to |par|
      invariant fb.Valid() && AllFit(par[..i])
      invariant fb.Contents() == before + CodedBytes(par[..i])
      invariant fb.Capacity() == old(fb.Capacity()) - |CodedBytes(par[..i])|
    {
      NextCoded(par, i);
      CodedPrefix(par, i);
      ok := fb.PutField(par[i].token, Raw(par[i].value) + [0]);
      if !ok {
        return;
      }
    }
    assert par[..|par|] == par;
    ok := true;
  }

  lemma {:induction false} NoneCoded(par: seq<Coded>)
    ensures CodedBytes(par[..0]) == [] && CodedBytes([]) == [] && ParametersBytes([]) == []
    ensures par != [] ==> |CodedBytes(par)| >= 2
  {
  }

  lemma NextCoded(par: seq<Coded>, i: nat)
    requires i < |par|
    ensures CodedBytes(par[..i + 1])
      == CodedBytes(par[..i]) + ([Token(par[i].token)] + (Raw(par[i].value) + [0]))
  {
    assert par[..i + 1][..i] == par[..i];
  }

  lemma {:induction false} CodedPrefix(par: seq<Coded>, i: nat)
    requires i <= |par|
    ensures |CodedBytes(par[..i])| <= |CodedBytes(par)|
    decreases |par|
  {
    if i < |par| {
      CodedPrefix(par[..|par| - 1], i);
      assert par[..|par| - 1][..i] == par[..i];
    } else {
      assert par[..i] == par;
    }
  }

  /** encode_content_type: succeeds when type and parameters fit and the device keeps up. */
  method EncodeContentType(t: Tables, contentType: CString, fb: Buffer) returns (ok: bool)
    requires fb.Valid()
    requires var m := Parse(contentType); m.Some? ==> |Value(t, m.value)| < 0x1_0000_0000
    modifies fb, fb.buf
    ensures ok ==> Parse(contentType).Some? && fb.Valid()
    ensures ok ==> TypeAndParametersFit(t, Parse(contentType).value)
    ensures Parse(contentType).Some? && TypeAndParametersFit(t, Parse(contentType).value) ==>
      old(fb.Capacity()) >= |Header(t, Parse(contentType).value)| ==> ok
    ensures ok ==> fb.Contents() == old(fb.Contents()) + Header(t, Parse(contentType).value)
  {
    hide Parse, CodedBytes, ParametersBytes, TypeBytes, ValueLength, Token;
    var parsed := Parse(contentType);
    if parsed.None? {
      return false;
    }
    var m := parsed.value;
    var len, par := Measure(t, m);
    var code := TypeBytes(t, m.name);
    if len == 1 {
      NoneCoded(par);
      ok := fb.PutField(HEADER_CONTENT_TYPE, Value(t, m));
      return;
    }
    ghost var before := fb.Contents();
    ok := fb.Put([Token(HEADER_CONTENT_TYPE)]);
    if ok {
      ok := fb.PutValueLength(len);
      if ok {
        ok := fb.Put(code);
        if ok {
          ok := WriteParameters(par, fb);
          HeaderJoin(before, [Token(HEADER_CONTENT_TYPE)], ValueLength(len), code, CodedBytes(par));
        }
      }
    }
  }

  predicate TypeAndParametersFit(t: Tables, m: Media) {
    |TypeBytes(t, m.name)| <= FB_SIZE && ParametersFit(m.parameters)
  }

  lemma HeaderJoin(a: Bytes, b: Bytes, c: Bytes, d: Bytes, e: Bytes)
    ensures a + b + c + d + e == a + (b + (c + (d + e)))
  {
  }
}
