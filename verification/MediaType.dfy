/**
  The HTTP media type parser and printer of mms_codec.c (section 3.7 of RFC 2616). A C
  string is the sequence of its characters; a pointer into it is what is left of it.
*/
module MediaType {
  import opened Common

  type Char = c: int | 1 <= c <= 255 witness 1
  type CString = seq<Char>

  const QUOTE: Char := 0x22
  const BACKSLASH: Char := 0x5c
  const SLASH: Char := 0x2f
  const SEMICOLON: Char := 0x3b
  const EQUALS: Char := 0x3d
  const SPACE: Char := 0x20

  /** The table http_token. */
  predicate IsTokenChar(c: Char) {
    || c == 0x21 || 0x23 <= c <= 0x27 || c == 0x2a || c == 0x2b || c == 0x2d || c == 0x2e
    || 0x30 <= c <= 0x39 || 0x41 <= c <= 0x5a || 0x5e <= c <= 0x7a || c == 0x7c || c == 0x7e
  }

  /** The table http_qdtext. It contains the backslash. */
  predicate IsQdText(c: Char) {
    c == 0x0a || c == 0x0d || c == 0x20 || c == 0x21 || 0x23 <= c <= 0x7e || 0x80 <= c
  }

  /** The table http_space. */
  predicate IsSpace(c: Char) {
    c == 0x09 || c == 0x0a || c == 0x0d || c == 0x20
  }

  /** The separators of RFC 2616, section 2.2: ()<>@,;:\"/[]?={} and white space. */
  const SEPARATORS: CString := [
    0x28, 0x29, 0x3c, 0x3e, 0x40, 0x2c, 0x3b, 0x3a, 0x5c, 0x22, 0x2f, 0x5b, 0x5d, 0x3f, 0x3d, 0x7b, 0x7d, 0x20, 0x09]

  predicate IsControl(c: Char) {
    c < 32 || c == 127
  }

  /** The tables are those of RFC 2616: a token has neither controls nor separators in it and is
      plain ASCII, and a quoted string has any text but the quote. The one difference is that a
      tab is white space but no text. */
  lemma TablesAreRight(c: Char)
    ensures IsTokenChar(c) <==> c < 128 && !IsControl(c) && c !in SEPARATORS
    ensures IsSpace(c) <==> c == 0x20 || c == 0x09 || c == 0x0d || c == 0x0a
    ensures IsQdText(c) <==> c != QUOTE && c != 0x09 && (!IsControl(c) || IsSpace(c))
  {
    assert SEPARATORS[0] == 0x28;
  }

  predicate IsToken(s: CString) {
    s != [] && forall c :: c in s ==> IsTokenChar(c)
  }

  datatype Parameter = Parameter(attribute: CString, value: CString)

  /** What the array of strings of the C code holds: "type/subtype", then attributes and
      values in turn. */
  datatype Media = Media(name: CString, parameters: seq<Parameter>)

  // ------------------------------------------------------------------ parsing

  function SkipSpaces(s: CString): CString {
    if s != [] && IsSpace(s[0]) then SkipSpaces(s[1..]) else s
  }

  /** The longest prefix of token characters, and the rest. */
  function TokenSpan(s: CString): (r: (CString, CString))
    ensures |r.1| <= |s|
  {
    if s != [] && IsTokenChar(s[0]) then
      var (token, rest) := TokenSpan(s[1..]);
      ([s[0]] + token, rest)
    else ([], s)
  }

  datatype Parsed = Failed | Parsed(text: CString, rest: CString)

  function ParseToken(s: CString): Parsed {
    var (token, rest) := TokenSpan(SkipSpaces(s));
    if token != [] then Parsed(token, SkipSpaces(rest)) else Failed
  }

  /** The text of a quoted string after the opening quote, up to the first character that
      cannot be part of it, with the quoted pairs resolved. */
  function QuotedText(s: CString): (r: (CString, CString))
    ensures |r.1| <= |s|
  {
    if s != [] && s[0] == BACKSLASH then
      if |s| > 1 then
        var (text, rest) := QuotedText(s[2..]);
        ([s[1]] + text, rest)
      else ([], [])
    else if s != [] && IsQdText(s[0]) then
      var (text, rest) := QuotedText(s[1..]);
      ([s[0]] + text, rest)
    else ([], s)
  }

  function ParseQuotedString(s: CString): Parsed {
    var s1 := SkipSpaces(s);
    if s1 != [] && s1[0] == QUOTE then
      var (text, rest) := QuotedText(s1[1..]);
      if rest != [] && rest[0] == QUOTE then Parsed(text, SkipSpaces(rest[1..])) else Failed
    else Failed
  }

  function ParseValue(s: CString): Parsed {
    var s1 := SkipSpaces(s);
    if s1 != [] && s1[0] == QUOTE then ParseQuotedString(s1) else ParseToken(s1)
  }

  lemma {:induction false} SkipSpacesShrinks(s: CString)
    ensures |SkipSpaces(s)| <= |s|
  {
    if s != [] && IsSpace(s[0]) {
      SkipSpacesShrinks(s[1..]);
    }
  }

  lemma ParseTokenShrinks(s: CString)
    ensures ParseToken(s).Parsed? ==> |ParseToken(s).rest| < |s|
  {
    SkipSpacesShrinks(s);
    var (token, rest) := TokenSpan(SkipSpaces(s));
    TokenSpanSplits(SkipSpaces(s));
    SkipSpacesShrinks(rest);
  }

  lemma {:induction false} TokenSpanSplits(s: CString)
    ensures s == TokenSpan(s).0 + TokenSpan(s).1
    ensures forall c :: c in TokenSpan(s).0 ==> IsTokenChar(c)
  {
    if s != [] && IsTokenChar(s[0]) {
      TokenSpanSplits(s[1..]);
    }
  }

  lemma ParseValueShrinks(s: CString)
    ensures ParseValue(s).Parsed? ==> |ParseValue(s).rest| <= |s|
  {
    var s1 := SkipSpaces(s);
    SkipSpacesShrinks(s);
    SkipSpacesShrinks(s1);
    if s1 != [] && s1[0] == QUOTE {
      var rest := QuotedText(s1[1..]).1;
      if rest != [] {
        SkipSpacesShrinks(rest[1..]);
      }
    } else {
      ParseTokenShrinks(s1);
    }
  }

  datatype OneParsed = OneFailed | OneParsed(parameter: Parameter, rest: CString)

  /** One parameter, after the semicolon. */
  function ParseParameter(s: CString): (r: OneParsed)
    ensures r.OneParsed? ==> |r.rest| <= |s|
  {
    var attribute := ParseToken(s);
    ParseTokenShrinks(s);
    if attribute.Failed? || attribute.rest == [] || attribute.rest[0] != EQUALS then OneFailed
    else
      var value := ParseValue(attribute.rest[1..]);
      ParseValueShrinks(attribute.rest[1..]);
      if value.Failed? then OneFailed
      else OneParsed(Parameter(attribute.text, value.text), value.rest)
  }

  function ParseParameters(s: CString): Option<seq<Parameter>>
    decreases |s|
  {
    if s == [] then Some([])
    else if s[0] != SEMICOLON then None
    else
      var one := ParseParameter(s[1..]);
      if one.OneFailed? then None
      else
        var others := ParseParameters(one.rest);
        if others.None? then None else Some([one.parameter] + others.value)
  }

  function ParseType(s: CString): Parsed {
    var first := ParseToken(s);
    if first.Parsed? && first.rest != [] && first.rest[0] == SLASH then
      var second := ParseToken(first.rest[1..]);
      if second.Parsed? then Parsed(first.text + [SLASH] + second.text, second.rest) else Failed
    else Failed
  }

  /** mms_parse_http_content_type */
  function Parse(s: CString): Option<Media> {
    var name := ParseType(s);
    if name.Failed? then None
    else
      var parameters := ParseParameters(name.rest);
      if parameters.None? then None else Some(Media(name.text, parameters.value))
  }

  // ----------------------------------------------------------------- printing

  function Escaped(v: CString): CString {
    if v == [] then []
    else (if IsQdText(v[0]) then [v[0]] else [BACKSLASH, v[0]]) + Escaped(v[1..])
  }

  function PrintValue(v: CString): CString {
    if IsToken(v) then v else [QUOTE] + Escaped(v) + [QUOTE]
  }

  function PrintParameter(p: Parameter): CString {
    [SEMICOLON, SPACE] + p.attribute + [EQUALS] + PrintValue(p.value)
  }

  function PrintParameters(ps: seq<Parameter>): CString {
    if ps == [] then [] else PrintParameter(ps[0]) + PrintParameters(ps[1..])
  }

  /** mms_unparse_http_content_type */
  function Print(m: Media): CString {
    m.name + PrintParameters(m.parameters)
  }

  // ------------------------------------------------------- the two are inverse

  ghost predicate IsName(name: CString) {
    exists t, u :: IsToken(t) && IsToken(u) && name == t + [SLASH] + u
  }

  ghost predicate WellFormed(m: Media) {
    IsName(m.name) && forall p :: p in m.parameters ==> IsToken(p.attribute)
  }

  /** What a parameter list starts with cannot continue a token and is no space. */
  predicate Stops(rest: CString) {
    rest == [] || (!IsTokenChar(rest[0]) && !IsSpace(rest[0]))
  }

  lemma {:induction false} TokenThen(token: CString, rest: CString)
    requires (forall c :: c in token ==> IsTokenChar(c)) && Stops(rest)
    ensures TokenSpan(token + rest) == (token, rest)
    ensures SkipSpaces(token + rest) == token + rest
  {
    if token == [] {
      assert token + rest == rest;
    } else {
      assert (token + rest)[1..] == token[1..] + rest;
      TokenThen(token[1..], rest);
      assert (token + rest)[0] == token[0] && token[0] in token;
      assert token == [token[0]] + token[1..];
    }
  }

  /** One character of a quoted string. */
  lemma OneEscaped(c: Char, tail: CString)
    requires c != BACKSLASH
    ensures var s := (if IsQdText(c) then [c] else [BACKSLASH, c]) + tail;
      QuotedText(s) == ([c] + QuotedText(tail).0, QuotedText(tail).1)
  {
    hide IsQdText;
    assert ([c] + tail)[1..] == tail;
    assert ([BACKSLASH, c] + tail)[2..] == tail;
  }

  lemma {:induction false} QuoteEnds(rest: CString)
    ensures QuotedText([QUOTE] + rest) == ([], [QUOTE] + rest)
  {
  }

  lemma {:induction false} EscapedThen(v: CString, rest: CString)
    requires BACKSLASH !in v
    ensures QuotedText(Escaped(v) + [QUOTE] + rest) == (v, [QUOTE] + rest)
  {
    hide QuotedText, IsQdText;
    var s := Escaped(v) + [QUOTE] + rest;
    if v == [] {
      assert s == [QUOTE] + rest;
      QuoteEnds(rest);
    } else {
      var tail := Escaped(v[1..]) + [QUOTE] + rest;
      EscapedThen(v[1..], rest);
      OneEscaped(v[0], tail);
      assert s == (if IsQdText(v[0]) then [v[0]] else [BACKSLASH, v[0]]) + tail;
      assert v == [v[0]] + v[1..];
    }
  }

  /** The parser reads a value with a backslash in it as something else. `k` counts the
      backslashes it has swallowed without replacement. */
  lemma {:induction false} SpoiltThen(v: CString, rest: CString, k: nat)
    requires k > 0 || BACKSLASH in v
    ensures QuotedText(Escaped(v) + [QUOTE] + rest).0 != seq(k, _ => BACKSLASH) + v
    decreases |v|
  {
    var s := Escaped(v) + [QUOTE] + rest;
    var expected := seq(k, _ => BACKSLASH) + v;
    if v == [] {
      assert s == [QUOTE] + rest;
    } else if v[0] != BACKSLASH {
      var tail := Escaped(v[1..]) + [QUOTE] + rest;
      assert s == (if IsQdText(v[0]) then [v[0]] else [BACKSLASH, v[0]]) + tail;
      OneEscaped(v[0], tail);
      if k == 0 {
        SpoiltThen(v[1..], rest, 0);
        assert expected == v && QuotedText(s).0[1..] == QuotedText(tail).0;
      } else {
        assert expected[0] == BACKSLASH;
      }
    } else if |v| == 1 {
      assert s == [BACKSLASH, QUOTE] + rest;
      assert expected[0] == BACKSLASH;
    } else {
      var tail := Escaped(v[2..]) + [QUOTE] + rest;
      assert v[1..][1..] == v[2..];
      assert s == [BACKSLASH] + (if IsQdText(v[1]) then [v[1]] else [BACKSLASH, v[1]]) + tail;
      if !IsQdText(v[1]) {
        assert s[2..] == [v[1]] + tail;
        assert QuotedText(s[2..]).0 == [];
      } else {
        assert s[2..] == tail;
        assert QuotedText(s).0 == [v[1]] + QuotedText(tail).0;
        if v[1] == BACKSLASH {
          SpoiltThen(v[2..], rest, k + 1);
          assert expected[1..] == seq(k + 1, _ => BACKSLASH) + v[2..];
        } else {
          assert expected[0] == BACKSLASH;
        }
      }
    }
  }

  lemma TokenValueThen(v: CString, rest: CString)
    requires Stops(rest) && IsToken(v)
    ensures ParseValue(v + rest) == Parsed(v, rest)
  {
    TokenThen(v, rest);
    TokenThen([], rest);
    assert [] + rest == rest;
    assert (v + rest)[0] == v[0] && v[0] in v;
  }

  lemma {:induction false} QuotedValueThen(v: CString, rest: CString)
    requires Stops(rest)
    ensures var value := ParseValue([QUOTE] + Escaped(v) + [QUOTE] + rest);
            if BACKSLASH in v then value.Parsed? ==> value.text != v else value == Parsed(v, rest)
  {
    var s := [QUOTE] + Escaped(v) + [QUOTE] + rest;
    assert s[1..] == Escaped(v) + [QUOTE] + rest;
    assert SkipSpaces(s) == s;
    if BACKSLASH in v {
      SpoiltThen(v, rest, 0);
      assert seq(0, _ => BACKSLASH) + v == v;
    } else {
      EscapedThen(v, rest);
      assert ([QUOTE] + rest)[1..] == rest;
      TokenThen([], rest);
      assert [] + rest == rest;
    }
  }

  lemma ParameterThen(p: Parameter, rest: CString)
    requires IsToken(p.attribute) && Stops(rest)
    ensures var one := ParseParameter((PrintParameter(p) + rest)[1..]);
            if BACKSLASH in p.value then one.OneParsed? ==> one.parameter != p
            else one == OneParsed(p, rest)
  {
    var tail := PrintValue(p.value) + rest;
    var s := (PrintParameter(p) + rest)[1..];
    assert s == [SPACE] + (p.attribute + ([EQUALS] + tail));
    assert s[1..] == p.attribute + ([EQUALS] + tail);
    TokenThen(p.attribute, [EQUALS] + tail);
    assert ([EQUALS] + tail)[1..] == tail;
    assert SkipSpaces([EQUALS] + tail) == [EQUALS] + tail;
    assert ParseToken(s) == Parsed(p.attribute, [EQUALS] + tail);
    if IsToken(p.value) {
      TokenValueThen(p.value, rest);
    } else {
      QuotedValueThen(p.value, rest);
    }
  }

  lemma {:induction false} ParametersStop(ps: seq<Parameter>)
    ensures Stops(PrintParameters(ps))
  {
  }

  predicate NoBackslash(ps: seq<Parameter>) {
    forall p :: p in ps ==> BACKSLASH !in p.value
  }

  lemma {:induction false} ParametersRoundTrip(ps: seq<Parameter>)
    requires forall p :: p in ps ==> IsToken(p.attribute)
    ensures ParseParameters(PrintParameters(ps)) == Some(ps) <==> NoBackslash(ps)
  {
    if ps != [] {
      ParametersStop(ps[1..]);
      ParameterThen(ps[0], PrintParameters(ps[1..]));
      ParametersRoundTrip(ps[1..]);
      assert ps == [ps[0]] + ps[1..];
      assert PrintParameters(ps)[0] == SEMICOLON;
    }
  }

  lemma TypeRoundTrip(t: CString, u: CString, rest: CString)
    requires IsToken(t) && IsToken(u) && Stops(rest)
    ensures ParseType(t + [SLASH] + u + rest) == Parsed(t + [SLASH] + u, rest)
  {
    var s := t + [SLASH] + u + rest;
    assert s == t + ([SLASH] + (u + rest));
    TokenThen(t, [SLASH] + (u + rest));
    assert ([SLASH] + (u + rest))[1..] == u + rest;
    TokenThen(u, rest);
    TokenThen([], rest);
    assert [] + rest == rest;
  }

  lemma {:induction false} ParsedParametersWellFormed(s: CString)
    requires ParseParameters(s).Some?
    ensures forall p :: p in ParseParameters(s).value ==> IsToken(p.attribute)
    decreases |s|
  {
    if s != [] {
      TokenSpanSplits(SkipSpaces(s[1..]));
      ParsedParametersWellFormed(ParseParameter(s[1..]).rest);
    }
  }

  /** Whatever the parser accepts has tokens where the grammar wants tokens. */
  lemma ParsedWellFormed(s: CString)
    requires Parse(s).Some?
    ensures WellFormed(Parse(s).value)
  {
    var first := ParseToken(s);
    TokenSpanSplits(SkipSpaces(s));
    var second := ParseToken(first.rest[1..]);
    TokenSpanSplits(SkipSpaces(first.rest[1..]));
    assert IsToken(first.text) && IsToken(second.text);
    ParsedParametersWellFormed(ParseType(s).rest);
  }

  /** Parsing what was printed gives the media type back exactly when the type, subtype and
      attributes are tokens and no value contains a backslash. */
  lemma RoundTrip(m: Media)
    ensures Parse(Print(m)) == Some(m) <==> WellFormed(m) && NoBackslash(m.parameters)
  {
    if WellFormed(m) {
      var t, u :| IsToken(t) && IsToken(u) && m.name == t + [SLASH] + u;
      ParametersStop(m.parameters);
      TypeRoundTrip(t, u, PrintParameters(m.parameters));
      ParametersRoundTrip(m.parameters);
    } else if Parse(Print(m)) == Some(m) {
      ParsedWellFormed(Print(m));
    }
  }

  /** Only a token is printed without quotes. */
  lemma BareOrQuoted(v: CString)
    ensures PrintValue(v) == v <==> IsToken(v)
    ensures IsToken(v) || (|PrintValue(v)| >= 2 && PrintValue(v)[0] == QUOTE)
  {
    hide Escaped, IsToken;
    EscapedLonger(v);
  }

  lemma {:induction false} EscapedLonger(v: CString)
    ensures |Escaped(v)| >= |v|
  {
    if v != [] {
      EscapedLonger(v[1..]);
    }
  }
}
