/** The loops of the media type parser and printer, each proved to compute what the function
    of module MediaType says. A position is an index into the whole string. */
module MediaScanner {
  import opened Common
  import opened MediaType

  method SkipSpacesAt(s: CString, start: nat) returns (i: nat)
    requires start <= |s|
    ensures start <= i <= |s| && s[i..] == SkipSpaces(s[start..])
  {
    i := start;
    while i < |s| && IsSpace(s[i])
      invariant start <= i <= |s| && SkipSpaces(s[i..]) == SkipSpaces(s[start..])
    {
      assert s[i..][1..] == s[i + 1..];
      i := i + 1;
    }
  }

  lemma TokenSpanAt(s: CString, i: nat)
    requires i <= |s|
    ensures i < |s| && IsTokenChar(s[i]) ==>
              TokenSpan(s[i..]) == ([s[i]] + TokenSpan(s[i + 1..]).0, TokenSpan(s[i + 1..]).1)
    ensures i == |s| || !IsTokenChar(s[i]) ==> TokenSpan(s[i..]) == ([], s[i..])
  {
    if i < |s| {
      assert s[i..][1..] == s[i + 1..];
    }
  }

  /** The loop over the characters of a token. */
  method ScanTokenChars(s: CString, start: nat) returns (token: CString, i: nat)
    requires start <= |s|
    ensures start <= i <= |s| && |token| == i - start && TokenSpan(s[start..]) == (token, s[i..])
  {
    hide TokenSpan, IsTokenChar;
    token, i := [], start;
    while i < |s| && IsTokenChar(s[i])
      invariant start <= i <= |s| && |token| == i - start
      invariant TokenSpan(s[start..]).0 == token + TokenSpan(s[i..]).0
      invariant TokenSpan(s[start..]).1 == TokenSpan(s[i..]).1
    {
      TokenSpanAt(s, i);
      Regroup(token, [s[i]], TokenSpan(s[i + 1..]).0);
      token := token + [s[i]];
      i := i + 1;
    }
    TokenSpanAt(s, i);
    assert token + [] == token;
  }

  method ScanToken(s: CString, start: nat) returns (ok: bool, token: CString, i: nat)
    requires start <= |s|
    ensures start <= i <= |s|
    ensures ParseToken(s[start..]) == if ok then Parsed(token, s[i..]) else Failed
    ensures ok ==> start < i
  {
    hide TokenSpan, SkipSpaces;
    i := SkipSpacesAt(s, start);
    token, i := ScanTokenChars(s, i);
    ok := |token| > 0;
    if ok {
      i := SkipSpacesAt(s, i);
    }
  }

  /** The loop over the inside of a quoted string. */
  method ScanQuotedText(s: CString, start: nat) returns (value: CString, i: nat)
    requires start <= |s|
    ensures start <= i <= |s| && QuotedText(s[start..]) == (value, s[i..])
  {
    hide QuotedText, IsQdText;
    i, value := start, [];
    while i < |s| && (s[i] == BACKSLASH || IsQdText(s[i]))
      invariant start <= i <= |s|
      invariant QuotedText(s[start..]).0 == value + QuotedText(s[i..]).0
      invariant QuotedText(s[start..]).1 == QuotedText(s[i..]).1
    {
      QuotedTextAt(s, i);
      if s[i] == BACKSLASH {
        i := i + 1;
        if i < |s| {
          Regroup(value, [s[i]], QuotedText(s[i + 1..]).0);
          value := value + [s[i]];
          i := i + 1;
        } else {
          QuotedTextAt(s, i);
        }
      } else {
        Regroup(value, [s[i]], QuotedText(s[i + 1..]).0);
        value := value + [s[i]];
        i := i + 1;
      }
    }
    QuotedTextAt(s, i);
    assert value + [] == value;
  }

  /** One step of QuotedText, in terms of positions. */
  lemma QuotedTextAt(s: CString, i: nat)
    requires i <= |s|
    ensures i == |s| || !(s[i] == BACKSLASH || IsQdText(s[i])) ==> QuotedText(s[i..]) == ([], s[i..])
    ensures i + 1 == |s| && s[i] == BACKSLASH ==> QuotedText(s[i..]) == ([], s[i + 1..])
    ensures i + 1 < |s| && s[i] == BACKSLASH ==>
              QuotedText(s[i..]) == ([s[i + 1]] + QuotedText(s[i + 2..]).0, QuotedText(s[i + 2..]).1)
    ensures i < |s| && s[i] != BACKSLASH && IsQdText(s[i]) ==>
              QuotedText(s[i..]) == ([s[i]] + QuotedText(s[i + 1..]).0, QuotedText(s[i + 1..]).1)
  {
    if i < |s| {
      assert s[i..][1..] == s[i + 1..];
      if i + 1 < |s| {
        assert s[i..][2..] == s[i + 2..];
      }
    }
  }

  method ScanQuotedString(s: CString, start: nat) returns (ok: bool, value: CString, i: nat)
    requires start <= |s|
    ensures start <= i <= |s|
    ensures ParseQuotedString(s[start..]) == if ok then Parsed(value, s[i..]) else Failed
  {
    ok, value := false, [];
    i := SkipSpacesAt(s, start);
    if i < |s| && s[i] == QUOTE {
      assert s[i..][1..] == s[i + 1..];
      value, i := ScanQuotedText(s, i + 1);
      if i < |s| && s[i] == QUOTE {
        assert s[i..][1..] == s[i + 1..];
        i := SkipSpacesAt(s, i + 1);
        ok := true;
      }
    }
  }

  method ScanParameter(s: CString, start: nat) returns (ok: bool, p: Parameter, i: nat)
    requires start <= |s|
    ensures start <= i <= |s|
    ensures ParseParameter(s[start..]) == if ok then OneParsed(p, s[i..]) else OneFailed
  {
    p := Parameter([], []);
    var attribute, value;
    ok, attribute, i := ScanToken(s, start);
    if ok {
      ok := i < |s| && s[i] == EQUALS;
      if ok {
        assert s[i..][1..] == s[i + 1..];
        i := SkipSpacesAt(s, i + 1);
        if i < |s| && s[i] == QUOTE {
          ok, value, i := ScanQuotedString(s, i);
        } else {
          ok, value, i := ScanToken(s, i);
        }
        p := Parameter(attribute, if ok then value else []);
      }
    }
  }

  lemma {:induction false} ParametersAt(s: CString)
    ensures s == [] ==> ParseParameters(s) == Some([])
    ensures s != [] && s[0] != SEMICOLON ==> ParseParameters(s) == None
    ensures s != [] && s[0] == SEMICOLON ==>
      var one := ParseParameter(s[1..]);
      if one.OneFailed? then ParseParameters(s) == None
      else
        var others := ParseParameters(one.rest);
        ParseParameters(s) == if others.None? then None else Some([one.parameter] + others.value)
  {
    hide ParseParameter;
  }

  /** mms_parse_parameters, from where a parameter may start. */
  method ScanParameters(s: CString, start: nat) returns (ok: bool, ps: seq<Parameter>)
    requires start <= |s|
    ensures ParseParameters(s[start..]) == if ok then Some(ps) else None
  {
    hide ParseParameter, ParseParameters;
    var i := start;
    ok, ps := true, [];
    while ok && i < |s| && s[i] == SEMICOLON
      invariant start <= i <= |s|
      invariant !ok ==> ParseParameters(s[start..]).None?
      invariant ok && ParseParameters(s[i..]).None? ==> ParseParameters(s[start..]).None?
      invariant ok && ParseParameters(s[i..]).Some? ==>
                  ParseParameters(s[start..]).Some? &&
                  ParseParameters(s[start..]).value == ps + ParseParameters(s[i..]).value
      decreases ok, |s| - i
    {
      ParametersAt(s[i..]);
      assert s[i..][1..] == s[i + 1..];
      var p;
      ok, p, i := ScanParameter(s, i + 1);
      if ok {
        ps := ps + [p];
      }
    }
    ParametersAt(s[i..]);
    assert ok && i == |s| ==> s[i..] == [] && ps + [] == ps;
    ok := ok && i == |s|;
  }

  /** mms_parse_http_content_type */
  method ParseContentType(s: CString) returns (media: Option<Media>)
    ensures media == Parse(s)
  {
    media := None;
    assert s[0..] == s;
    var ok, first, i := ScanToken(s, 0);
    if ok && i < |s| && s[i] == SLASH {
      assert s[i..][1..] == s[i + 1..];
      var second, ps;
      ok, second, i := ScanToken(s, i + 1);
      if ok {
        ok, ps := ScanParameters(s, i);
        if ok {
          media := Some(Media(first + [SLASH] + second, ps));
        }
      }
    }
  }

  method IsHttpToken(v: CString) returns (ok: bool)
    ensures ok == IsToken(v)
  {
    for i := 0 to |v|
      invariant forall j :: 0 <= j < i ==> IsTokenChar(v[j])
    {
      if !IsTokenChar(v[i]) {
        return false;
      }
    }
    return v != [];
  }

  method QuoteIfNecessary(v: CString) returns (s: CString)
    ensures s == PrintValue(v)
  {
    var token := IsHttpToken(v);
    if token {
      return v;
    }
    s := [QUOTE];
    for i := 0 to |v|
      invariant s + Escaped(v[i..]) == [QUOTE] + Escaped(v)
    {
      assert v[i..][1..] == v[i + 1..];
      if !IsQdText(v[i]) {
        s := s + [BACKSLASH];
      }
      s := s + [v[i]];
    }
    s := s + [QUOTE];
  }

  lemma PrintNext(s: CString, ps: seq<Parameter>, i: nat)
    requires i < |ps|
    ensures s + PrintParameters(ps[i..]) == s + PrintParameter(ps[i]) + PrintParameters(ps[i + 1..])
  {
    hide PrintParameter;
    assert ps[i..][1..] == ps[i + 1..];
  }

  /** mms_unparse_http_content_type */
  method UnparseContentType(m: Media) returns (s: CString)
    ensures s == Print(m)
  {
    s := m.name;
    for i := 0 to |m.parameters|
      invariant s + PrintParameters(m.parameters[i..]) == Print(m)
    {
      hide PrintParameters, PrintValue, Print;
      var p := m.parameters[i];
      PrintNext(s, m.parameters, i);
      var value := QuoteIfNecessary(p.value);
      s := s + ([SEMICOLON, SPACE] + p.attribute + [EQUALS] + value);
    }
  }
}
