/** An address list on the wire: one text header for every address, read back and joined. */
module AddressHeaders {
  import opened Common
  import opened Wsp
  import opened MediaType
  import opened Addresses
  import P = PartHeader
  import FB = FileBuffer

  /** encode_text for every element. */
  function Sent(token: Byte, list: seq<CString>): Bytes {
    if list == [] then [] else P.Field(token, P.TextBytes(list[0])) + Sent(token, list[1..])
  }

  function Fields(token: Byte, list: seq<CString>): seq<P.HeaderField> {
    seq(|list|, k requires 0 <= k < |list| =>
      P.HeaderField(FB.Token(token), P.TextValue, P.TextBytes(list[k])))
  }

  predicate AllStartText(list: seq<CString>) {
    forall k :: 0 <= k < |list| ==> P.StartsText(list[k])
  }

  /** The headers that a reader finds, up to what it cannot read. */
  function FieldsIn(s: Bytes): seq<P.HeaderField>
    decreases |s|
  {
    if s == [] then []
    else
      match P.TakeValue(s[1..])
      case NotTaken => []
      case Taken(value, rest) => [P.HeaderField(s[0], P.KindOf(s[1]), value)] + FieldsIn(rest)
  }

  lemma {:induction false} TextField(token: Byte, text: CString, rest: Bytes)
    requires P.StartsText(text)
    ensures FieldsIn(P.Field(token, P.TextBytes(text)) + rest)
      == [P.HeaderField(FB.Token(token), P.TextValue, P.TextBytes(text))] + FieldsIn(rest)
  {
    hide P.TakeValue, P.TextBytes;
    var s := P.Field(token, P.TextBytes(text)) + rest;
    P.StartedText(text, rest);
    P.NeverEmpty(text);
    assert s[0] == FB.Token(token) && s[1] == P.TextBytes(text)[0];
    assert s[1..] == P.TextBytes(text) + rest;
  }

  /** What does not start like a text is not read as one. */
  lemma {:induction false} OtherField(token: Byte, text: CString, rest: Bytes)
    requires !P.StartsText(text)
    ensures var fields := FieldsIn(P.Field(token, P.TextBytes(text)) + rest);
      fields == [] || MisreadAs(fields[0], token, P.TextBytes(text) + rest)
  {
    hide P.TakeCounted, P.TextBytes;
    P.NeverEmpty(text);
    P.OtherText(text);
    var s := P.Field(token, P.TextBytes(text)) + rest;
    assert s[0] == FB.Token(token) && s[1] == P.TextBytes(text)[0];
    assert s[1..] == P.TextBytes(text) + rest;
  }

  /** The first of the octets is the beginning of a Value-length. */
  predicate MisreadAs(f: P.HeaderField, token: Byte, s: Bytes) {
    var taken := P.TakeCounted(s);
    taken.Taken? && f == P.HeaderField(FB.Token(token), P.CountedValue, taken.value)
  }

  lemma FieldsFirst(token: Byte, list: seq<CString>)
    ensures Fields(token, []) == []
    ensures list != [] ==>
      Fields(token, list)
        == [P.HeaderField(FB.Token(token), P.TextValue, P.TextBytes(list[0]))] + Fields(token, list[1..])
  {
    hide P.TextBytes, FB.Token;
  }

  lemma {:induction false} FieldsAfter(token: Byte, list: seq<CString>, rest: Bytes)
    requires AllStartText(list)
    ensures FieldsIn(Sent(token, list) + rest) == Fields(token, list) + FieldsIn(rest)
  {
    hide FieldsIn, P.TextBytes, P.Field, FB.Token, Fields, P.StartsText;
    if list == [] {
      FieldsFirst(token, list);
      assert [] + rest == rest && [] + FieldsIn(rest) == FieldsIn(rest);
    } else {
      var others := Sent(token, list[1..]);
      FieldsAfter(token, list[1..], rest);
      TextField(token, list[0], others + rest);
      FieldsFirst(token, list);
      Regroup(P.Field(token, P.TextBytes(list[0])), others, rest);
      Regroup([P.HeaderField(FB.Token(token), P.TextValue, P.TextBytes(list[0]))],
              Fields(token, list[1..]), FieldsIn(rest));
    }
  }

  /** The headers that were sent are the ones that are found exactly when all of them start
      like a text. */
  lemma {:induction false} SentReads(token: Byte, list: seq<CString>)
    ensures FieldsIn(Sent(token, list)) == Fields(token, list) <==> AllStartText(list)
  {
    if AllStartText(list) {
      FieldsAfter(token, list, []);
      assert Sent(token, list) + [] == Sent(token, list);
      assert Fields(token, list) + FieldsIn([]) == Fields(token, list);
    } else {
      hide FieldsIn, P.TextBytes, P.Field, FB.Token, P.StartsText;
      var k := FirstOther(list);
      SentParts(token, list, k);
      FieldsAfter(token, list[..k], Sent(token, list[k..]));
      OtherField(token, list[k], Sent(token, list[k + 1..]));
      assert Fields(token, list)[k].kind == P.TextValue;
    }
  }

  /** The first element that does not start like a text. */
  lemma {:induction false} FirstOther(list: seq<CString>) returns (k: nat)
    requires !AllStartText(list)
    ensures k < |list| && !P.StartsText(list[k]) && AllStartText(list[..k])
  {
    if !P.StartsText(list[0]) {
      k := 0;
    } else {
      assert forall i :: 1 <= i < |list| ==> list[i] == list[1..][i - 1];
      var j := FirstOther(list[1..]);
      k := j + 1;
      assert list[..k] == [list[0]] + list[1..][..j];
    }
  }

  lemma {:induction false} SentParts(token: Byte, list: seq<CString>, k: nat)
    requires k < |list|
    ensures Sent(token, list) == Sent(token, list[..k]) + Sent(token, list[k..])
    ensures Sent(token, list[k..]) == P.Field(token, P.TextBytes(list[k])) + Sent(token, list[k + 1..])
  {
    hide P.TextBytes, P.Field;
    assert list[k..][1..] == list[k + 1..];
    if k == 0 {
      assert list[0..] == list && Sent(token, list[..0]) == [];
    } else {
      SentParts(token, list[1..], k - 1);
      assert list[..k][1..] == list[1..][..k - 1] && list[1..][k - 1..] == list[k..];
      assert list[1..][k - 1 + 1..] == list[k + 1..];
    }
  }

  // ------------------------------------------------------------ collecting texts

  /** MIB enum of UTF-8 */
  const UTF8: nat := 106

  /** What the conversion makes of a text in the character set with that number, if anything. */
  datatype Charsets = Charsets(convert: (nat, Bytes) -> Option<CString>)

  function Converted(c: Charsets, number: nat, text: Bytes): Option<CString> {
    c.convert(number, text)
  }

  /** A text, which has to end with a NUL. */
  function TextUpToNul(s: Bytes): Option<CString> {
    if P.UpToNul(s) == |s| then None else Some(P.Text(s))
  }

  /** decode_encoded_string_with_mib_enum: UTF-8 is taken as it is. */
  function DecodeCounted(c: Charsets, value: Bytes): Option<CString> {
    match ReadInteger(value)
    case Broken => None
    case Read(number, text) =>
      if number == UTF8 then TextUpToNul(text) else Converted(c, number, text)
  }

  /** decode_encoded_text */
  function Element(c: Charsets, f: P.HeaderField): Option<CString> {
    match f.kind
    case TextValue => Some(P.Text(f.value))
    case CountedValue => DecodeCounted(c, f.value)
    case ShortValue => None
  }

  function Collect(before: Option<CString>, element: CString): Option<CString> {
    if before.None? then Some(element) else Some(before.value + [COMMA] + element)
  }

  /** extract_encoded_text_element for the headers with that token, up to the first failure. */
  function Collected(c: Charsets, token: Byte, out: Option<CString>, fields: seq<P.HeaderField>): Option<CString>
    decreases |fields|
  {
    if fields == [] then out
    else if fields[0].token != token then Collected(c, token, out, fields[1..])
    else
      match Element(c, fields[0])
      case None => out
      case Some(element) => Collected(c, token, Collect(out, element), fields[1..])
  }

  function AllUnquoted(list: seq<CString>): seq<CString> {
    seq(|list|, k requires 0 <= k < |list| => P.Unquoted(list[k]))
  }

  /** What is there after the texts. */
  function Onto(out: Option<CString>, texts: seq<CString>): Option<CString>
    decreases |texts|
  {
    if texts == [] then out else Onto(Collect(out, texts[0]), texts[1..])
  }

  lemma {:induction false} FieldsCollected(c: Charsets, token: Byte, out: Option<CString>, list: seq<CString>,
                                           more: seq<P.HeaderField>)
    ensures Collected(c, FB.Token(token), out, Fields(token, list) + more)
      == Collected(c, FB.Token(token), Onto(out, AllUnquoted(list)), more)
    decreases |list|
  {
    if list == [] {
      assert Fields(token, list) + more == more && AllUnquoted(list) == [];
    } else {
      hide P.Text, P.TextBytes, P.Unquoted, FB.Token;
      P.TextBack(list[0]);
      var fields := Fields(token, list) + more;
      assert fields[1..] == Fields(token, list[1..]) + more;
      assert AllUnquoted(list)[1..] == AllUnquoted(list[1..]);
      FieldsCollected(c, token, Collect(out, P.Unquoted(list[0])), list[1..], more);
    }
  }

  lemma {:induction false} OntoNext(out: Option<CString>, texts: seq<CString>, text: CString)
    ensures Onto(out, texts + [text]) == Collect(Onto(out, texts), text)
    decreases |texts|
  {
    hide Collect;
    if texts == [] {
      assert ([] + [text])[1..] == [];
    } else {
      assert (texts + [text])[1..] == texts[1..] + [text];
      OntoNext(Collect(out, texts[0]), texts[1..], text);
    }
  }

  /** The comma-join of the texts. */
  lemma {:induction false} CollectedJoined(texts: seq<CString>)
    ensures Onto(None, texts) == if texts == [] then None else Some(JoinedBy(texts, COMMA))
  {
    if texts != [] {
      hide Onto;
      var front, last := texts[..|texts| - 1], texts[|texts| - 1];
      CollectedJoined(front);
      OntoNext(None, front, last);
      assert texts == front + [last];
      JoinedByNext(front, COMMA, last);
    }
  }

  function AllStripped(list: seq<CString>): seq<CString> {
    seq(|list|, k requires 0 <= k < |list| => Stripped(list[k]))
  }

  /** mms_split_address_list */
  function SplitAddressList(list: Option<CString>): seq<CString> {
    AllStripped(Elements(list))
  }

  /** The whole way in: the headers are read, collected, and taken apart again. */
  function Received(c: Charsets, token: Byte, bytes: Bytes): seq<CString> {
    SplitAddressList(Collected(c, FB.Token(token), None, FieldsIn(bytes)))
  }

  lemma UnquotedClean(n: CString)
    requires Clean(n)
    ensures NoComma(P.Unquoted(n)) && P.Unquoted(n) != []
  {
    hide LastType;
    if n[0] == P.TEXT_QUOTE {
      var p := LastType(n, |n|).value;
      assert n[p..p + 6] == SUFFIX;
      assert forall c :: c in n[1..] ==> c in n;
    }
  }

  lemma UnquotedPieces(list: seq<CString>)
    requires AllClean(list) && list != []
    ensures var texts := AllUnquoted(list);
      JoinedBy(texts, COMMA) != [] && Pieces(JoinedBy(texts, COMMA)) == texts
  {
    hide Clean, P.Unquoted, NoComma;
    var texts := AllUnquoted(list);
    forall k | 0 <= k < |list|
      ensures NoComma(texts[k]) && texts[k] != []
    {
      UnquotedClean(list[k]);
    }
    JoinThenPieces(texts);
    JoinedNotEmpty(texts);
  }

  lemma ElementsReceived(list: seq<CString>)
    requires AllClean(list)
    ensures Elements(Onto(None, AllUnquoted(list))) == AllUnquoted(list)
  {
    hide Clean, P.Unquoted, Onto;
    CollectedJoined(AllUnquoted(list));
    if list != [] {
      UnquotedPieces(list);
    }
  }

  lemma {:induction false} LeftTrimmed(s: CString, i: nat)
    requires i < |s| && !IsBlank(s[i])
    ensures |TrimLeft(s)| >= |s| - i
  {
    if IsBlank(s[0]) {
      LeftTrimmed(s[1..], i - 1);
    }
  }

  lemma {:induction false} RightTight(t: CString)
    requires t != [] && !IsBlank(t[|t| - 1])
    ensures TrimRight(t) == t
  {
  }

  lemma TailTrimmed(n: CString, g: nat, p: nat)
    requires Tight(n) && 1 <= g <= p < |n| && !IsBlank(n[p])
    ensures exists gone :: 1 <= gone <= p && Trim(n[g..]) == n[gone..]
  {
    hide TrimLeft, TrimRight;
    var m := n[g..];
    LeftTrimmed(m, p - g);
    var t := TrimLeft(m);
    var gone := |n| - |t|;
    assert t == n[gone..];
    RightTight(t);
    assert 1 <= gone <= p && Trim(m) == n[gone..];
  }

  lemma TypeAtTail(n: CString, gone: nat, i: nat)
    requires gone <= |n|
    ensures TypeAt(n[gone..], i) <==> TypeAt(n, i + gone)
  {
    if i + gone + |SUFFIX| <= |n| {
      assert n[gone..][i..i + |SUFFIX|] == n[i + gone..i + gone + |SUFFIX|];
    }
  }

  lemma {:induction false} TypeOfTail(n: CString, gone: nat)
    requires HasType(n) && 1 <= gone <= LastType(n, |n|).value
    ensures |CutType(n[gone..])| < |CutType(n)|
  {
    hide LastType, TypeAt;
    var t := n[gone..];
    var p := LastType(n, |n|).value;
    TypeAtTail(n, gone, p - gone);
    assert LastType(t, |t|).Some?;
    var q := LastType(t, |t|).value;
    TypeAtTail(n, gone, q);
  }

  lemma {:induction false} SlashOfType(n: CString)
    requires HasType(n)
    ensures var p := LastType(n, |n|).value; p + 6 <= |n| && n[p] == 0x2f && n[p + 1] == 0x54
  {
    hide LastType;
    var p := LastType(n, |n|).value;
    assert n[p..p + 6] == SUFFIX && n[p..p + 6][0] == n[p] && n[p..p + 6][1] == n[p + 1];
  }

  /** An address that loses what it starts with comes back shorter. */
  lemma {:induction false} TailShorter(n: CString, g: nat)
    requires Tight(n) && HasType(n) && 1 <= g <= LastType(n, |n|).value
    ensures |Stripped(n[g..])| < |Stripped(n)|
  {
    hide TrimLeft, TrimRight, LastType, CutType, Trim;
    var p := LastType(n, |n|).value;
    SlashOfType(n);
    TrimAgain(n);
    TailTrimmed(n, g, p);
    var gone :| 1 <= gone <= p && Trim(n[g..]) == n[gone..];
    TypeOfTail(n, gone);
  }

  lemma OneBack(n: CString)
    requires Clean(n)
    ensures Stripped(P.Unquoted(n)) == Stripped(n) <==> n[0] != P.TEXT_QUOTE
  {
    hide LastType, Stripped;
    if n[0] == P.TEXT_QUOTE {
      SlashOfType(n);
      TailShorter(n, 1);
    }
  }

  lemma AllBack(list: seq<CString>)
    requires AllClean(list)
    ensures AllStripped(AllUnquoted(list)) == AllStripped(list)
      <==> forall k :: 0 <= k < |list| ==> list[k][0] != P.TEXT_QUOTE
  {
    hide LastType, Stripped, P.Unquoted;
    forall k | 0 <= k < |list|
      ensures AllStripped(AllUnquoted(list))[k] == AllStripped(list)[k] <==> list[k][0] != P.TEXT_QUOTE
    {
      OneBack(list[k]);
    }
    if exists k :: 0 <= k < |list| && list[k][0] == P.TEXT_QUOTE {
      var k :| 0 <= k < |list| && list[k][0] == P.TEXT_QUOTE;
      assert AllStripped(AllUnquoted(list))[k] != AllStripped(list)[k];
    } else {
      assert AllStripped(AllUnquoted(list)) == AllStripped(list);
    }
  }

  /** What the receiver should see: the pieces that are not blank, trimmed, without types. */
  function Expected(pieces: seq<CString>): seq<CString> {
    if pieces == [] then []
    else
      var last := pieces[|pieces| - 1];
      Expected(pieces[..|pieces| - 1]) + if Trim(last) == [] then [] else [Stripped(last)]
  }

  lemma StrippedBoth(a: seq<CString>, b: seq<CString>)
    ensures AllStripped(a + b) == AllStripped(a) + AllStripped(b)
  {
    hide Stripped;
  }

  lemma {:induction false} ExpectedNormalized(pieces: seq<CString>)
    ensures AllStripped(NormalizedAll(pieces)) == Expected(pieces)
  {
    if pieces == [] {
      assert AllStripped([]) == [];
    } else {
      hide Stripped, Trim, Typed, AllStripped;
      var front, last := pieces[..|pieces| - 1], pieces[|pieces| - 1];
      ExpectedNormalized(front);
      LastNormalized(last);
      var sent: seq<CString> := if Normalized(last).Some? then [Normalized(last).value] else [];
      StrippedBoth(NormalizedAll(front), sent);
    }
  }

  lemma LastNormalized(last: CString)
    ensures AllStripped(if Normalized(last).Some? then [Normalized(last).value] else [])
      == if Trim(last) == [] then [] else [Stripped(last)]
  {
    hide Stripped, Trim, Typed;
    if Normalized(last).Some? {
      NormalizedBack(last);
    }
  }

  // ------------------------------------------------- a header that is no text

  /** What is left when a number has been read off octets that are below 128 at `p`. */
  lemma {:induction false} UintvarInside(acc: nat, s: Bytes, p: nat)
    requires p < |s| && s[p] < 128
    ensures var r := ReadMore(acc, s);
      r.Read? && exists i :: 1 <= i <= p + 1 && r.rest == s[i..]
    decreases |s|
  {
    if s[0] < 128 {
      assert s[1..] == s[1..] && 1 <= p + 1;
    } else {
      var next := acc * 128 + (s[0] - 128);
      UintvarInside(next, s[1..], p - 1);
      var i :| 1 <= i <= p && ReadMore(next, s[1..]).rest == s[1..][i..];
      assert s[1..][i..] == s[i + 1..];
    }
  }

  /** The text with its NUL and what comes behind it. */
  function Stream(n: CString, rest: Bytes): Bytes {
    P.Raw(n) + [0] + rest
  }

  lemma StreamFrom(n: CString, rest: Bytes, i: nat)
    requires i <= |n|
    ensures Stream(n, rest)[i..] == Stream(n[i..], rest)
  {
  }

  lemma StreamAt(n: CString, rest: Bytes, i: nat)
    requires i < |n|
    ensures i < |Stream(n, rest)| && Stream(n, rest)[i] == n[i]
  {
  }

  /** A counted value starts inside the text, not behind the slash. */
  lemma MisreadInside(n: CString, rest: Bytes, p: nat)
    requires 1 <= p < |n| && n[0] < 32 && n[p] < 128 && P.TakeCounted(Stream(n, rest)).Taken?
    ensures exists i :: 1 <= i <= p + 1 && P.TakeCounted(Stream(n, rest)).value <= Stream(n[i..], rest)
  {
    hide ReadMore, Stream;
    var s := Stream(n, rest);
    StreamFrom(n, rest, 1);
    StreamAt(n, rest, 0);
    if n[0] <= 30 {
      assert P.TakeCounted(s).value <= Stream(n[1..], rest);
    } else {
      StreamAt(n, rest, p);
      UintvarInside(0, s[1..], p - 1);
      var i :| 1 <= i <= p && ReadMore(0, s[1..]).rest == s[1..][i..];
      StreamFrom(n[1..], rest, i);
      assert n[1..][i..] == n[i + 1..];
    }
  }

  lemma {:induction false} NulInside(n: CString, rest: Bytes, v: Bytes)
    requires v <= Stream(n, rest)
    ensures P.UpToNul(v) < |v| ==> P.Chars(v) == n
  {
    if v != [] && n != [] {
      assert Stream(n, rest)[1..] == Stream(n[1..], rest);
      NulInside(n[1..], rest, v[1..]);
    }
  }

  /** Which of the octets of an Integer-value come from the text: one, or two for 106. */
  lemma NumberInside(n: CString, rest: Bytes, v: Bytes, i: nat, p: nat)
    requires 1 <= i <= p + 1 && p + 1 < |n| && n[p] == 0x2f && n[p + 1] == 0x54
    requires v <= Stream(n[i..], rest) && ReadInteger(v).Read? && ReadInteger(v).value == UTF8
    ensures exists g :: 2 <= g <= p && ReadInteger(v).rest <= Stream(n[g..], rest)
  {
    var s := Stream(n[i..], rest);
    var text := ReadInteger(v).rest;
    assert v[0] == s[0] == n[i];
    assert i < p;
    if v[0] >= 128 {
      assert s[1..] == Stream(n[i + 1..], rest);
      assert text <= Stream(n[i + 1..], rest);
    } else {
      assert v[1] == s[1] == n[i + 1];
      NotLeadingZero(v[1..v[0] + 1]);
      assert v[0] == 1 && v[1] == UTF8;
      assert s[2..] == Stream(n[i + 2..], rest);
      assert text <= Stream(n[i + 2..], rest);
    }
  }

  lemma {:induction false} QuoteInside(n: CString, rest: Bytes, v: Bytes)
    requires n != [] && v <= Stream(n, rest) && P.UpToNul(v) < |v|
    ensures v != [] && v[0] == n[0]
    ensures v[0] == P.TEXT_QUOTE ==> P.Chars(v[1..]) == n[1..]
  {
    assert Stream(n, rest)[1..] == Stream(n[1..], rest);
    assert v[0] == n[0];
    NulInside(n[1..], rest, v[1..]);
  }

  /** A text that starts inside another, before the slash, is the rest of that one. */
  lemma {:induction false} TextInside(n: CString, rest: Bytes, v: Bytes, g: nat, p: nat)
    requires 2 <= g <= p < |n| && n[p] == 0x2f && v <= Stream(n[g..], rest) && P.UpToNul(v) < |v|
    ensures exists h :: 2 <= h <= p && P.Text(v) == n[h..]
  {
    hide P.UpToNul, P.Chars, Stream;
    NulInside(n[g..], rest, v);
    QuoteInside(n[g..], rest, v);
    assert n[g..][0] == n[g];
    if v[0] == P.TEXT_QUOTE {
      assert P.Text(v) == n[g..][1..] == n[g + 1..];
    }
  }

  /** A text that is misread as UTF-8 with the number in front loses what it starts with. */
  lemma {:induction false} MisreadUtf8(n: CString, rest: Bytes, v: Bytes)
    requires HasType(n) && n[0] < 32
    requires P.TakeCounted(Stream(n, rest)).Taken? && P.TakeCounted(Stream(n, rest)).value == v
    requires ReadInteger(v).Read? && ReadInteger(v).value == UTF8 && TextUpToNul(ReadInteger(v).rest).Some?
    ensures exists h :: 2 <= h <= LastType(n, |n|).value && TextUpToNul(ReadInteger(v).rest).value == n[h..]
  {
    hide LastType, P.TakeCounted, ReadInteger, P.UpToNul, P.Text, Stream;
    var p := LastType(n, |n|).value;
    SlashOfType(n);
    MisreadInside(n, rest, p);
    var i :| 1 <= i <= p + 1 && v <= Stream(n[i..], rest);
    NumberInside(n, rest, v, i, p);
    var text := ReadInteger(v).rest;
    var g :| 2 <= g <= p && text <= Stream(n[g..], rest);
    TextInside(n, rest, text, g, p);
  }

  /** A text as it should be: no control characters but blanks. */
  predicate Displayable(s: CString) {
    forall c :: c in s ==> c >= 32 || IsBlank(c)
  }

  /** A value that is not in another character set than UTF-8, or that cannot be converted
      from it, or is converted to a text as it should be. */
  predicate Harmless(c: Charsets, value: Bytes) {
    var r := ReadInteger(value);
    r.Read? && r.value != UTF8 && Converted(c, r.value, r.rest).Some? ==>
      Displayable(Converted(c, r.value, r.rest).value)
  }

  /** The first value that was found that is no text. */
  function FirstCounted(fields: seq<P.HeaderField>): Option<Bytes> {
    if fields == [] then None
    else if fields[0].kind.CountedValue? then Some(fields[0].value)
    else FirstCounted(fields[1..])
  }

  /** If anything is misread, the first value that is has no text in another character set that
      is converted to control characters. */
  predicate NothingForeign(c: Charsets, bytes: Bytes) {
    var misread := FirstCounted(FieldsIn(bytes));
    misread.Some? ==> Harmless(c, misread.value)
  }

  lemma {:induction false} TextsFirst(token: Byte, list: seq<CString>, more: seq<P.HeaderField>)
    ensures FirstCounted(Fields(token, list) + more) == FirstCounted(more)
  {
    hide P.TextBytes, FB.Token;
    var fields := Fields(token, list) + more;
    if list == [] {
      assert fields == more;
    } else {
      assert fields[1..] == Fields(token, list[1..]) + more;
      TextsFirst(token, list[1..], more);
    }
  }

  /** More of the list can only follow after a comma. */
  predicate GrowsTo(s: CString, r: CString) {
    r == s || (|s| < |r| && r[..|s|] == s && r[|s|] == COMMA)
  }

  lemma {:induction false} CollectedGrows(c: Charsets, token: Byte, s: CString, fields: seq<P.HeaderField>)
    ensures Collected(c, token, Some(s), fields).Some?
    ensures GrowsTo(s, Collected(c, token, Some(s), fields).value)
    decreases |fields|
  {
    hide Element;
    if fields != [] {
      if fields[0].token != token {
        CollectedGrows(c, token, s, fields[1..]);
      } else if Element(c, fields[0]).Some? {
        CollectedGrows(c, token, s + [COMMA] + Element(c, fields[0]).value, fields[1..]);
      }
    }
  }

  lemma {:induction false} GrownPieces(s: CString, r: CString)
    requires GrowsTo(s, r)
    ensures Pieces(s) <= Pieces(r)
  {
    if r != s {
      var more := r[|s| + 1..];
      assert r == s + [COMMA] + more;
      PiecesOfBoth(s, more);
    }
  }

  lemma {:induction false} PiecesDisplayable(s: CString)
    requires Displayable(s)
    ensures forall k :: 0 <= k < |Pieces(s)| ==> Displayable(Pieces(s)[k])
  {
    if s != [] {
      PiecesDisplayable(s[1..]);
      var r := Pieces(s[1..]);
      assert Displayable(r[0]) && Displayable([]);
      if s[0] != COMMA {
        assert s[0] in s && Displayable([s[0]] + r[0]);
      }
    }
  }

  lemma StrippedDisplayable(s: CString)
    requires Displayable(s)
    ensures Stripped(s) != [] ==> Stripped(s)[0] >= 32
  {
    hide LastType, TrimLeft, TrimRight;
    TrimmedFrom(s);
    if Stripped(s) != [] {
      assert Trim(s)[0] in Trim(s) && Stripped(s)[0] == Trim(s)[0];
    }
  }

  lemma StrippedControl(n: CString)
    requires Clean(n) && n[0] < 32
    ensures Stripped(n) != [] && Stripped(n)[0] < 32
  {
    hide LastType;
    TrimAgain(n);
    var p := LastType(n, |n|).value;
    assert n[p..p + 6] == SUFFIX && n[p..p + 6][0] == n[p];
  }

  /** The first piece of what a misread address is decoded as is not that address. */
  lemma MisreadDiffers(c: Charsets, n: CString, rest: Bytes, v: Bytes)
    requires Clean(n) && n[0] < 32 && Harmless(c, v)
    requires P.TakeCounted(Stream(n, rest)).Taken? && P.TakeCounted(Stream(n, rest)).value == v
    ensures DecodeCounted(c, v).Some? ==> Stripped(Pieces(DecodeCounted(c, v).value)[0]) != Stripped(n)
  {
    hide LastType, Stripped, P.TakeCounted, ReadInteger, TextUpToNul, Pieces, Stream;
    if DecodeCounted(c, v).Some? {
      var e := DecodeCounted(c, v).value;
      if ReadInteger(v).value == UTF8 {
        MisreadUtf8(n, rest, v);
        var g :| 2 <= g <= LastType(n, |n|).value && e == n[g..];
        assert NoComma(e);
        OnePiece(e);
        TailShorter(n, g);
      } else {
        PiecesDisplayable(e);
        StrippedDisplayable(Pieces(e)[0]);
        StrippedControl(n);
      }
    }
  }

  /** The list comes back shorter, or with something else in that place. */
  lemma {:induction false} OtherReceived(c: Charsets, token: Byte, a: seq<CString>, n: CString, rest: Bytes,
                      fields: seq<P.HeaderField>)
    requires AllClean(a) && Clean(n) && n[0] < 32
    requires fields == [] || (MisreadAs(fields[0], token, Stream(n, rest)) && Harmless(c, fields[0].value))
    ensures var r := SplitAddressList(Collected(c, FB.Token(token), Onto(None, AllUnquoted(a)), fields));
      |r| <= |a| || r[|a|] != Stripped(n)
  {
    hide Clean, Stripped, Onto, P.Unquoted, Displayable, DecodeCounted, Stream, P.TakeCounted, Harmless;
    ElementsReceived(a);
    if fields != [] && Element(c, fields[0]).Some? {
      var e := Element(c, fields[0]).value;
      var out := Onto(None, AllUnquoted(a));
      CollectedJoined(AllUnquoted(a));
      var s := Collect(out, e).value;
      CollectedGrows(c, FB.Token(token), s, fields[1..]);
      var r := Collected(c, FB.Token(token), Some(s), fields[1..]).value;
      GrownPieces(s, r);
      PiecesAfter(a, e);
      if r != [] {
        assert Pieces(r)[|a|] == Pieces(e)[0];
        MisreadDiffers(c, n, rest, fields[0].value);
      }
    }
  }

  /** The pieces of what was collected before, and then those of the next element. */
  lemma {:induction false} PiecesAfter(a: seq<CString>, e: CString)
    requires AllClean(a)
    ensures Pieces(Collect(Onto(None, AllUnquoted(a)), e).value) == AllUnquoted(a) + Pieces(e)
  {
    hide Clean, Onto, P.Unquoted, Pieces;
    CollectedJoined(AllUnquoted(a));
    if a != [] {
      UnquotedPieces(a);
      PiecesOfBoth(JoinedBy(AllUnquoted(a), COMMA), e);
    } else {
      assert AllUnquoted(a) + Pieces(e) == Pieces(e);
    }
  }

  // ------------------------------------------------------------- the round trip

  /** An address that comes back as it is. */
  predicate Survives(n: CString) {
    n != [] && n[0] >= 32 && n[0] != P.TEXT_QUOTE
  }

  predicate AllSurvive(list: seq<CString>) {
    forall k :: 0 <= k < |list| ==> Survives(list[k])
  }

  lemma {:induction false} StartedSurvive(c: Charsets, token: Byte, list: seq<CString>)
    requires AllClean(list) && AllStartText(list)
    ensures Received(c, token, Sent(token, list)) == AllStripped(list) <==> AllSurvive(list)
  {
    hide Clean, Stripped, P.Unquoted, Fields, FieldsIn, Onto, Elements, P.TextBytes;
    SentReads(token, list);
    FieldsCollected(c, token, None, list, []);
    assert Fields(token, list) + [] == Fields(token, list);
    ElementsReceived(list);
    AllBack(list);
  }

  lemma {:induction false} OtherLost(c: Charsets, token: Byte, list: seq<CString>)
    requires AllClean(list) && !AllStartText(list) && NothingForeign(c, Sent(token, list))
    ensures Received(c, token, Sent(token, list)) != AllStripped(list)
  {
    hide Clean, Stripped, P.Unquoted, Fields, FieldsIn, Onto, Elements, P.TextBytes, Harmless, P.TakeCounted;
    var k := FirstOther(list);
    OneNotStarted(list, k);
    var n, a, rest, more := list[k], list[..k], Sent(token, list[k..]), Sent(token, list[k + 1..]);
    SentParts(token, list, k);
    FieldsAfter(token, a, rest);
    OtherField(token, n, more);
    assert P.TextBytes(n) + more == Stream(n, more) by {
      LowIsRaw(n);
    }
    FieldsCollected(c, token, None, a, FieldsIn(rest));
    if FieldsIn(rest) != [] {
      TextsFirst(token, a, FieldsIn(rest));
      assert FirstCounted(FieldsIn(rest)) == Some(FieldsIn(rest)[0].value);
    }
    OtherReceived(c, token, a, n, more, FieldsIn(rest));
    assert AllStripped(list)[k] == Stripped(list[k]);
  }

  lemma LowIsRaw(n: CString)
    requires n != [] && n[0] < 32
    ensures P.TextBytes(n) == P.Raw(n) + [0]
  {
  }

  lemma {:induction false} CleanListSurvives(c: Charsets, token: Byte, list: seq<CString>)
    requires AllClean(list)
    ensures AllSurvive(list) ==> Received(c, token, Sent(token, list)) == AllStripped(list)
    ensures NothingForeign(c, Sent(token, list)) ==>
      (Received(c, token, Sent(token, list)) == AllStripped(list) <==> AllSurvive(list))
  {
    hide Clean, Received, Sent, AllStripped, NothingForeign;
    if AllStartText(list) {
      StartedSurvive(c, token, list);
    } else {
      var k := FirstOther(list);
      OneNotStarted(list, k);
      if NothingForeign(c, Sent(token, list)) {
        OtherLost(c, token, list);
      }
    }
  }

  lemma OneNotStarted(list: seq<CString>, k: nat)
    requires AllClean(list) && k < |list| && !P.StartsText(list[k])
    ensures Clean(list[k]) && list[k] != [] && list[k][0] < 32 && !Survives(list[k])
  {
    hide NoComma, LastType;
  }

  /** Preparing, encoding, decoding and splitting a list gives back its addresses, trimmed and
      without types, when each of them starts with an octet of at least 32 that is not the
      quote, whatever the conversion of character sets does. It comes back only then, unless
      what is misread first is a text in another character set than UTF-8. */
  lemma {:induction false} AddressesSurvive(c: Charsets, token: Byte, s: CString)
    ensures var bytes := Sent(token, Elements(Prepared(s)));
      && (AllSurvive(NormalizedAll(Pieces(s))) ==> Received(c, token, bytes) == Expected(Pieces(s)))
      && (NothingForeign(c, bytes) ==>
            (Received(c, token, bytes) == Expected(Pieces(s)) <==> AllSurvive(NormalizedAll(Pieces(s)))))
  {
    hide Normalized, Clean, Received, Sent, AllStripped, AllSurvive, NothingForeign, Elements;
    var list := NormalizedAll(Pieces(s));
    PiecesHaveNoComma(s);
    NormalizedAllClean(Pieces(s));
    ElementsSent(s);
    CleanListSurvives(c, token, list);
    ExpectedNormalized(Pieces(s));
  }
}
