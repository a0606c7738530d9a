/**
  The media types that the parser accepts, written down as a grammar: tokens and quoted strings
  with any white space, or none, between them (section 3.7 of RFC 2616).
*/
module MediaGrammar {
  import opened Common
  import opened MediaType

  /** White space, possibly none. */
  predicate Gap(s: CString) {
    forall c :: c in s ==> IsSpace(c)
  }

  /** A character of a quoted string, as it is or in a quoted pair. */
  datatype Piece = Plain(c: Char) | Pair(c: Char)

  predicate PieceOk(p: Piece) {
    p.Plain? ==> IsQdText(p.c) && p.c != BACKSLASH
  }

  predicate PiecesOk(ps: seq<Piece>) {
    forall i :: 0 <= i < |ps| ==> PieceOk(ps[i])
  }

  function Spelled(ps: seq<Piece>): CString {
    if ps == [] then []
    else (if ps[0].Plain? then [ps[0].c] else [BACKSLASH, ps[0].c]) + Spelled(ps[1..])
  }

  function Meant(ps: seq<Piece>): CString {
    seq(|ps|, i requires 0 <= i < |ps| => ps[i].c)
  }

  datatype Spelling = Bare(token: CString) | Quoted(pieces: seq<Piece>)

  predicate SpellingOk(v: Spelling) {
    match v
    case Bare(token) => IsToken(token)
    case Quoted(pieces) => PiecesOk(pieces)
  }

  function SpellingText(v: Spelling): CString {
    match v
    case Bare(token) => token
    case Quoted(pieces) => [QUOTE] + (Spelled(pieces) + [QUOTE])
  }

  function SpellingMeant(v: Spelling): CString {
    match v
    case Bare(token) => token
    case Quoted(pieces) => Meant(pieces)
  }

  /** A semicolon, an attribute, an equals sign and a value, with gaps behind each of them. */
  datatype Written = Written(
    gap0: CString, attribute: CString, gap1: CString, gap2: CString, value: Spelling, gap3: CString)

  predicate WrittenOk(w: Written) {
    && Gap(w.gap0) && Gap(w.gap1) && Gap(w.gap2) && Gap(w.gap3)
    && IsToken(w.attribute) && SpellingOk(w.value)
  }

  /** The text behind the semicolon, with what follows. */
  function WrittenText(w: Written, rest: CString): CString {
    w.gap0 + (w.attribute + (w.gap1 + ([EQUALS] + (w.gap2 + (SpellingText(w.value) + (w.gap3 + rest))))))
  }

  function AllText(ws: seq<Written>): CString {
    if ws == [] then [] else [SEMICOLON] + WrittenText(ws[0], AllText(ws[1..]))
  }

  function AllMeant(ws: seq<Written>): seq<Parameter> {
    seq(|ws|, i requires 0 <= i < |ws| => Parameter(ws[i].attribute, SpellingMeant(ws[i].value)))
  }

  predicate AllOk(ws: seq<Written>) {
    forall i :: 0 <= i < |ws| ==> WrittenOk(ws[i])
  }

  datatype Form = Form(
    gap0: CString, name: CString, gap1: CString, gap2: CString, subtype: CString, gap3: CString,
    parameters: seq<Written>)

  predicate FormOk(f: Form) {
    && Gap(f.gap0) && Gap(f.gap1) && Gap(f.gap2) && Gap(f.gap3)
    && IsToken(f.name) && IsToken(f.subtype) && AllOk(f.parameters)
  }

  function FormText(f: Form): CString {
    f.gap0 + (f.name + (f.gap1 + ([SLASH] + (f.gap2 + (f.subtype + (f.gap3 + AllText(f.parameters)))))))
  }

  function FormMeant(f: Form): Media {
    Media(f.name + [SLASH] + f.subtype, AllMeant(f.parameters))
  }

  // ------------------------------------------------------- what the grammar allows is accepted

  lemma {:induction false} GapSkipped(gap: CString, rest: CString)
    requires Gap(gap) && (rest == [] || !IsSpace(rest[0]))
    ensures SkipSpaces(gap + rest) == rest
  {
    if gap == [] {
      assert gap + rest == rest;
    } else {
      assert (gap + rest)[1..] == gap[1..] + rest;
      assert gap[0] in gap;
      GapSkipped(gap[1..], rest);
    }
  }

  lemma {:induction false} TokenEnds(token: CString, rest: CString)
    requires (forall c :: c in token ==> IsTokenChar(c)) && (rest == [] || !IsTokenChar(rest[0]))
    ensures TokenSpan(token + rest) == (token, rest)
  {
    if token == [] {
      assert token + rest == rest;
    } else {
      assert (token + rest)[1..] == token[1..] + rest;
      TokenEnds(token[1..], rest);
      assert (token + rest)[0] == token[0] && token[0] in token;
      assert token == [token[0]] + token[1..];
    }
  }

  lemma TokenParsed(g: CString, token: CString, h: CString, rest: CString)
    requires Gap(g) && IsToken(token) && Gap(h) && Stops(rest)
    ensures ParseToken(g + (token + (h + rest))) == Parsed(token, rest)
  {
    hide TokenSpan, SkipSpaces;
    var tail := h + rest;
    assert (token + tail)[0] == token[0] && token[0] in token;
    GapSkipped(g, token + tail);
    assert tail == [] || !IsTokenChar(tail[0]) by {
      if h != [] {
        assert h[0] in h && tail[0] == h[0];
      } else {
        assert tail == rest;
      }
    }
    TokenEnds(token, tail);
    GapSkipped(h, rest);
  }

  lemma PieceParsed(p: Piece, tail: CString)
    requires PieceOk(p)
    ensures var s := (if p.Plain? then [p.c] else [BACKSLASH, p.c]) + tail;
      QuotedText(s) == ([p.c] + QuotedText(tail).0, QuotedText(tail).1)
  {
    hide IsQdText;
    if p.Plain? {
      assert ([p.c] + tail)[1..] == tail;
    } else {
      assert ([BACKSLASH, p.c] + tail)[2..] == tail;
    }
  }

  lemma {:induction false} QuotedParsed(ps: seq<Piece>, rest: CString)
    requires PiecesOk(ps)
    ensures QuotedText(Spelled(ps) + ([QUOTE] + rest)) == (Meant(ps), [QUOTE] + rest)
  {
    hide QuotedText, PieceOk;
    var s := Spelled(ps) + ([QUOTE] + rest);
    if ps == [] {
      assert s == [QUOTE] + rest && Meant(ps) == [];
      QuoteEnds(rest);
    } else {
      var tail := Spelled(ps[1..]) + ([QUOTE] + rest);
      QuotedParsed(ps[1..], rest);
      PieceParsed(ps[0], tail);
      assert Meant(ps) == [ps[0].c] + Meant(ps[1..]);
      assert s == (if ps[0].Plain? then [ps[0].c] else [BACKSLASH, ps[0].c]) + tail;
    }
  }

  /** After the gap it is decided whether a value is quoted. */
  lemma ValueIs(g: CString, text: CString)
    requires Gap(g) && text != [] && !IsSpace(text[0])
    ensures ParseValue(g + text) == if text[0] == QUOTE then ParseQuotedString(text) else ParseToken(text)
  {
    hide SkipSpaces, IsSpace, Gap, ParseQuotedString, ParseToken;
    GapSkipped(g, text);
  }

  lemma BareParsed(token: CString, h: CString, rest: CString)
    requires IsToken(token) && Gap(h) && Stops(rest)
    ensures ParseToken(token + (h + rest)) == Parsed(token, rest)
    ensures var text := token + (h + rest); text != [] && !IsSpace(text[0]) && text[0] != QUOTE
  {
    hide ParseToken;
    var none: CString := [];
    var text := token + (h + rest);
    assert text[0] == token[0] && token[0] in token;
    assert none + text == text;
    TokenParsed(none, token, h, rest);
  }

  lemma {:induction false} QuotedStringParsed(pieces: seq<Piece>, h: CString, rest: CString)
    requires PiecesOk(pieces) && Gap(h) && Stops(rest)
    ensures ParseQuotedString([QUOTE] + (Spelled(pieces) + [QUOTE]) + (h + rest)) == Parsed(Meant(pieces), rest)
  {
    hide SkipSpaces, QuotedText, Spelled, PiecesOk, Meant, IsTokenChar;
    var text := [QUOTE] + (Spelled(pieces) + [QUOTE]) + (h + rest);
    var none: CString := [];
    assert none + text == text && text[0] == QUOTE;
    GapSkipped(none, text);
    assert text[1..] == Spelled(pieces) + ([QUOTE] + (h + rest));
    QuotedParsed(pieces, h + rest);
    assert ([QUOTE] + (h + rest))[1..] == h + rest;
    GapSkipped(h, rest);
  }

  lemma ValueParsed(g: CString, v: Spelling, h: CString, rest: CString)
    requires Gap(g) && SpellingOk(v) && Gap(h) && Stops(rest)
    ensures ParseValue(g + (SpellingText(v) + (h + rest))) == Parsed(SpellingMeant(v), rest)
  {
    hide ParseValue, ParseToken, ParseQuotedString, Gap, Stops, IsToken, PiecesOk;
    var text := SpellingText(v) + (h + rest);
    match v {
      case Bare(token) => BareParsed(token, h, rest);
      case Quoted(pieces) =>
        QuotedStringParsed(pieces, h, rest);
        assert text[0] == QUOTE;
    }
    ValueIs(g, text);
  }

  lemma ParameterParsed(w: Written, rest: CString)
    requires WrittenOk(w) && Stops(rest)
    ensures ParseParameter(WrittenText(w, rest))
      == OneParsed(Parameter(w.attribute, SpellingMeant(w.value)), rest)
  {
    hide ParseToken, ParseValue, SpellingText, SpellingMeant, SpellingOk, Gap;
    var value := w.gap2 + (SpellingText(w.value) + (w.gap3 + rest));
    var behind := [EQUALS] + value;
    TokenParsed(w.gap0, w.attribute, w.gap1, behind);
    assert behind[0] == EQUALS && behind[1..] == value;
    ValueParsed(w.gap2, w.value, w.gap3, rest);
  }

  lemma {:induction false} AllTextStops(ws: seq<Written>)
    ensures Stops(AllText(ws))
  {
  }

  lemma {:induction false} AllParsed(ws: seq<Written>)
    requires AllOk(ws)
    ensures ParseParameters(AllText(ws)) == Some(AllMeant(ws))
  {
    hide WrittenText, ParseParameter, WrittenOk, SpellingMeant;
    if ws == [] {
      assert AllMeant(ws) == [];
    } else {
      var others := AllText(ws[1..]);
      AllTextStops(ws[1..]);
      AllParsed(ws[1..]);
      ParameterParsed(ws[0], others);
      assert AllText(ws)[1..] == WrittenText(ws[0], others);
      assert AllMeant(ws) == [Parameter(ws[0].attribute, SpellingMeant(ws[0].value))] + AllMeant(ws[1..]);
    }
  }

  /** Whatever white space there is, or is not, and whatever is quoted, or is not. */
  lemma FormParsed(f: Form)
    requires FormOk(f)
    ensures Parse(FormText(f)) == Some(FormMeant(f))
  {
    hide ParseToken, Gap, AllText, ParseParameters, AllMeant;
    var tail := AllText(f.parameters);
    var second := f.gap2 + (f.subtype + (f.gap3 + tail));
    var behind := [SLASH] + second;
    AllTextStops(f.parameters);
    TokenParsed(f.gap0, f.name, f.gap1, behind);
    assert behind[0] == SLASH && behind[1..] == second;
    TokenParsed(f.gap2, f.subtype, f.gap3, tail);
    AllParsed(f.parameters);
  }

  // --------------------------------------------------------- and nothing else is accepted

  lemma {:induction false} GapInFront(s: CString) returns (g: CString)
    ensures Gap(g) && s == g + SkipSpaces(s)
  {
    if s != [] && IsSpace(s[0]) {
      var h := GapInFront(s[1..]);
      g := [s[0]] + h;
    } else {
      g := [];
    }
  }

  lemma TokenFrom(s: CString) returns (g: CString, h: CString)
    requires ParseToken(s).Parsed?
    ensures Gap(g) && Gap(h) && IsToken(ParseToken(s).text)
    ensures s == g + (ParseToken(s).text + (h + ParseToken(s).rest))
  {
    g := GapInFront(s);
    TokenSpanSplits(SkipSpaces(s));
    h := GapInFront(TokenSpan(SkipSpaces(s)).1);
  }

  lemma PieceInFront(s: CString) returns (p: Piece, tail: CString)
    requires s != [] && QuotedText(s).1 != [] && (s[0] == BACKSLASH || IsQdText(s[0]))
    ensures PieceOk(p) && s == (if p.Plain? then [p.c] else [BACKSLASH, p.c]) + tail && |tail| < |s|
    ensures QuotedText(s) == ([p.c] + QuotedText(tail).0, QuotedText(tail).1)
  {
    hide IsQdText;
    if s[0] == BACKSLASH {
      p, tail := Pair(s[1]), s[2..];
    } else {
      p, tail := Plain(s[0]), s[1..];
    }
  }

  lemma {:induction false} QuotedFrom(s: CString) returns (ps: seq<Piece>)
    requires QuotedText(s).1 != []
    ensures PiecesOk(ps) && Meant(ps) == QuotedText(s).0 && s == Spelled(ps) + QuotedText(s).1
    decreases |s|
  {
    if s[0] == BACKSLASH || IsQdText(s[0]) {
      hide PieceOk, IsQdText;
      var p, tail := PieceInFront(s);
      hide QuotedText;
      var others := QuotedFrom(tail);
      ps := [p] + others;
      assert ps[1..] == others;
      assert Meant(ps) == [p.c] + Meant(others);
    } else {
      ps := [];
    }
  }

  lemma QuotedStringFrom(s: CString) returns (ps: seq<Piece>, h: CString)
    requires s != [] && s[0] == QUOTE && ParseQuotedString(s).Parsed?
    ensures PiecesOk(ps) && Gap(h) && Meant(ps) == ParseQuotedString(s).text
    ensures s == [QUOTE] + (Spelled(ps) + [QUOTE]) + (h + ParseQuotedString(s).rest)
  {
    hide QuotedText, Spelled, PiecesOk, Meant, Gap;
    assert SkipSpaces(s) == s;
    hide SkipSpaces;
    var rest := QuotedText(s[1..]).1;
    ps := QuotedFrom(s[1..]);
    h := GapInFront(rest[1..]);
    Requoted(s, Spelled(ps), h, SkipSpaces(rest[1..]), rest);
  }

  lemma Requoted(s: CString, inside: CString, h: CString, last: CString, rest: CString)
    requires s != [] && s[0] == QUOTE && s[1..] == inside + rest
    requires rest != [] && rest[0] == QUOTE && rest[1..] == h + last
    ensures s == [QUOTE] + (inside + [QUOTE]) + (h + last)
  {
    assert s == [QUOTE] + s[1..] && rest == [QUOTE] + rest[1..];
  }

  lemma ValueFrom(s: CString) returns (g: CString, v: Spelling, h: CString)
    requires ParseValue(s).Parsed?
    ensures Gap(g) && SpellingOk(v) && Gap(h) && SpellingMeant(v) == ParseValue(s).text
    ensures s == g + (SpellingText(v) + (h + ParseValue(s).rest))
  {
    hide ParseQuotedString, ParseToken, SkipSpaces, PiecesOk, IsToken;
    g := GapInFront(s);
    var s1 := SkipSpaces(s);
    if s1 != [] && s1[0] == QUOTE {
      var ps;
      ps, h := QuotedStringFrom(s1);
      v := Quoted(ps);
    } else {
      var g1;
      g1, h := TokenFrom(s1);
      v := Bare(ParseToken(s1).text);
      g := g + g1;
    }
  }

  lemma ParameterFrom(s: CString) returns (w: Written)
    requires ParseParameter(s).OneParsed?
    ensures WrittenOk(w) && s == WrittenText(w, ParseParameter(s).rest)
    ensures ParseParameter(s).parameter == Parameter(w.attribute, SpellingMeant(w.value))
  {
    hide ParseToken, ParseValue;
    var a := ParseToken(s);
    var g0, g1 := TokenFrom(s);
    var g2, v, g3 := ValueFrom(a.rest[1..]);
    w := Written(g0, a.text, g1, g2, v, g3);
    assert a.rest == [EQUALS] + a.rest[1..];
  }

  lemma {:induction false} AllFrom(s: CString) returns (ws: seq<Written>)
    requires ParseParameters(s).Some?
    ensures AllOk(ws) && AllText(ws) == s && AllMeant(ws) == ParseParameters(s).value
    decreases |s|
  {
    hide ParseParameter, WrittenText, WrittenOk, SpellingMeant;
    if s == [] {
      ws := [];
    } else {
      var one := ParseParameter(s[1..]);
      var w := ParameterFrom(s[1..]);
      var others := AllFrom(one.rest);
      ws := [w] + others;
      assert ws[1..] == others;
      assert s == [SEMICOLON] + s[1..];
      assert AllMeant(ws) == [one.parameter] + AllMeant(others);
    }
  }

  lemma FormFrom(s: CString) returns (f: Form)
    requires Parse(s).Some?
    ensures FormOk(f) && FormText(f) == s && FormMeant(f) == Parse(s).value
  {
    hide ParseToken, ParseParameters, AllText, AllMeant, AllOk;
    var first := ParseToken(s);
    var g0, g1 := TokenFrom(s);
    var second := ParseToken(first.rest[1..]);
    var g2, g3 := TokenFrom(first.rest[1..]);
    var ws := AllFrom(second.rest);
    f := Form(g0, first.text, g1, g2, second.text, g3, ws);
    assert first.rest == [SLASH] + first.rest[1..];
  }

  ghost predicate Grammatical(s: CString, m: Media) {
    exists f :: FormOk(f) && FormText(f) == s && FormMeant(f) == m
  }

  /** The parser accepts the strings of the grammar and no others, and makes of them what they
      mean. */
  lemma ParsesExactly(s: CString, m: Media)
    ensures Parse(s) == Some(m) <==> Grammatical(s, m)
  {
    hide Parse, FormOk, FormText, FormMeant;
    if Parse(s) == Some(m) {
      var f := FormFrom(s);
      assert FormOk(f) && FormText(f) == s && FormMeant(f) == m;
    }
    if Grammatical(s, m) {
      var f :| FormOk(f) && FormText(f) == s && FormMeant(f) == m;
      FormParsed(f);
    }
  }
}
