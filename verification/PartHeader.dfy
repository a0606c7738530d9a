/**
  The headers that mms_encode_send_req_part_header writes for one part: their announced
  length, their octets, and a reader of the values inside them.
*/
module PartHeader {
  import opened Common
  import opened Wsp
  import opened FileBuffer
  import opened MediaType
  import G = MediaGrammar

  const TEXT_QUOTE: Byte := 127
  const TYPE_CHARSET: Byte := 0x01
  const TYPE_NAME: Byte := 0x05
  const TYPE_FILENAME: Byte := 0x06
  const TYPE_CONTENT_TYPE: Byte := 0x09
  const TYPE_START: Byte := 0x0a
  const HEADER_LOCATION: Byte := 0x0e
  const HEADER_DISPOSITION: Byte := 0x2e
  const HEADER_CONTENT_ID: Byte := 0x40
  const ATTACHMENT: Byte := 0x81

  const APPLICATION_SMIL: CString := [
    0x61, 0x70, 0x70, 0x6c, 0x69, 0x63, 0x61, 0x74, 0x69, 0x6f, 0x6e, 0x2f, 0x73, 0x6d, 0x69, 0x6c]
  const CHARSET: CString := [0x63, 0x68, 0x61, 0x72, 0x73, 0x65, 0x74]
  const NAME: CString := [0x6e, 0x61, 0x6d, 0x65]

  type Word = v: int | 0 <= v < 0x1_0000_0000

  datatype Part = Part(
    contentType: CString, contentId: Option<CString>, location: Option<CString>, data: Bytes)

  /** The tables of the WSP library: codes of media types, numbers of character sets. */
  datatype Tables = Tables(types: CString -> Option<Byte>, charsets: CString -> Option<Word>)

  function TypeCode(t: Tables, name: CString): Option<Byte> {
    t.types(name)
  }

  function CharsetNumber(t: Tables, name: CString): Option<Word> {
    t.charsets(name)
  }

  // ------------------------------------------------------------- pieces of text

  function Raw(s: CString): (b: Bytes)
    ensures b == s
  {
    seq(|s|, i requires 0 <= i < |s| => s[i])
  }

  /** Text-string: a first octet above 127 is quoted. */
  function TextBytes(s: CString): Bytes {
    (if s != [] && s[0] >= 128 then [TEXT_QUOTE] else []) + Raw(s) + [0]
  }

  function QuotedId(s: CString): Bytes {
    [0x22, 0x3c] + Raw(s) + [0x3e, 0]
  }

  /** Integer-value (section 8.4.2.3 of WAP-230-WSP). */
  function IntegerValue(v: Word): Bytes {
    if v < 128 then [128 + v] else
      var octets := Octets(v);
      OctetsShort(v);
      [|octets|] + octets
  }

  lemma {:induction false} OctetsShort(v: Word)
    ensures |Octets(v)| <= 4
  {
    assert Power256(2) == 65536;
    assert Power256(4) == 0x1_0000_0000;
    OctetsLength(v, 4);
  }

  lemma IntegerRoundTrip(v: Word, rest: Bytes)
    ensures ReadInteger(IntegerValue(v) + rest) == Read(v, rest)
  {
    var all := IntegerValue(v) + rest;
    if v < 128 {
      assert all[1..] == rest;
    } else {
      OctetsShort(v);
      OctetsValue(v);
      assert all[1..all[0] + 1] == Octets(v) && all[all[0] + 1..] == rest;
    }
  }

  /** The short form is used whenever it can be. */
  lemma IntegerShort(v: Word)
    ensures |IntegerValue(v)| == 1 <==> v < 128
  {
    assert |Octets(v)| >= 1;
  }

  function Field(token: Byte, value: Bytes): Bytes {
    [Token(token)] + value
  }

  // ------------------------------------------------------------ case of letters

  function Lower(c: Char): Char {
    if 0x41 <= c <= 0x5a then c + 32 else c
  }

  /** g_ascii_strcasecmp against a name in lower case. */
  predicate Named(s: CString, key: CString) {
    |s| == |key| && forall i :: 0 <= i < |s| ==> Lower(s[i]) == key[i]
  }

  /** The same but for the case of letters. */
  predicate SameButCase(a: CString, b: CString) {
    |a| == |b| && forall i :: 0 <= i < |a| ==>
      || a[i] == b[i]
      || (0x41 <= a[i] <= 0x5a && b[i] == a[i] + 32) || (0x41 <= b[i] <= 0x5a && a[i] == b[i] + 32)
  }

  /** A parameter is recognized by its name in whatever case. */
  lemma CaseIgnored(a: CString, b: CString, key: CString)
    requires SameButCase(a, b)
    ensures Named(a, key) == Named(b, key)
    ensures (forall c :: c in key ==> !(0x41 <= c <= 0x5a)) ==> Named(key, key)
  {
    forall i | 0 <= i < |a|
      ensures Lower(a[i]) == Lower(b[i])
    {
    }
    if forall c :: c in key ==> !(0x41 <= c <= 0x5a) {
      forall i | 0 <= i < |key|
        ensures Lower(key[i]) == key[i]
      {
        assert key[i] in key;
      }
    }
  }

  function ValuesNamed(ps: seq<Parameter>, key: CString): seq<CString> {
    if ps == [] then []
    else (if Named(ps[0].attribute, key) then [ps[0].value] else []) + ValuesNamed(ps[1..], key)
  }

  lemma {:induction false} ValuesNamedConcat(a: seq<Parameter>, b: seq<Parameter>, key: CString)
    ensures ValuesNamed(a + b, key) == ValuesNamed(a, key) + ValuesNamed(b, key)
  {
    if a == [] {
      assert a + b == b;
    } else {
      assert (a + b)[1..] == a[1..] + b;
      ValuesNamedConcat(a[1..], b, key);
    }
  }

  // --------------------------------------------------- the header of one part

  function TypeBytes(t: Tables, name: CString): (b: Bytes)
    ensures |b| >= 1
  {
    match TypeCode(t, name)
    case Some(code) => [Token(code)]
    case None => Raw(name) + [0]
  }

  function CharsetBytes(t: Tables, charset: CString): Bytes {
    match CharsetNumber(t, charset)
    case Some(number) => IntegerValue(number)
    case None => []
  }

  /** What each charset parameter and each name parameter adds to the computed length. */
  function CharsetsLength(t: Tables, values: seq<CString>): nat {
    if values == [] then 0
    else CharsetsLength(t, values[..|values| - 1]) + 1 + |CharsetBytes(t, values[|values| - 1])|
  }

  function NamesLength(values: seq<CString>): nat {
    if values == [] then 0
    else NamesLength(values[..|values| - 1]) + 1 + |TextBytes(values[|values| - 1])|
  }

  function TypeLength(t: Tables, m: Media): nat {
    |TypeBytes(t, m.name)| + CharsetsLength(t, ValuesNamed(m.parameters, CHARSET))
      + NamesLength(ValuesNamed(m.parameters, NAME))
  }

  /** The parameters that are written: the last charset and the last name. */
  function CharsetField(t: Tables, m: Media): Bytes {
    var values := ValuesNamed(m.parameters, CHARSET);
    if values == [] then [] else Field(TYPE_CHARSET, CharsetBytes(t, values[|values| - 1]))
  }

  function NameField(m: Media): Bytes {
    var values := ValuesNamed(m.parameters, NAME);
    if values == [] then [] else Field(TYPE_NAME, TextBytes(values[|values| - 1]))
  }

  function TypeValue(t: Tables, m: Media): Bytes {
    TypeBytes(t, m.name) + CharsetField(t, m) + NameField(m)
  }

  function IdField(p: Part): Bytes {
    match p.contentId
    case Some(id) => Field(HEADER_CONTENT_ID, QuotedId(id))
    case None => []
  }

  function LocationField(p: Part): Bytes {
    match p.location
    case Some(location) => Field(HEADER_LOCATION, TextBytes(location))
    case None => []
  }

  /** Attachment, and the location once more as a file name. A location that would need a
      quote gets a second NUL instead. */
  function FileName(location: CString): Bytes {
    Raw(location) + (if location != [] && location[0] >= 128 then [0, 0] else [0])
  }

  function DispositionValue(location: CString): Bytes {
    [ATTACHMENT, Token(TYPE_FILENAME)] + FileName(location)
  }

  function DispositionField(m: Media, p: Part): Bytes {
    match p.location
    case Some(location) =>
      if m.name == APPLICATION_SMIL then []
      else Field(HEADER_DISPOSITION,
                 ValueLength(|DispositionValue(location)|) + DispositionValue(location))
    case None => []
  }

  function OtherFields(m: Media, p: Part): Bytes {
    IdField(p) + LocationField(p) + DispositionField(m, p)
  }

  function Headers(t: Tables, m: Media, p: Part): Bytes {
    ValueLength(TypeLength(t, m)) + TypeValue(t, m) + OtherFields(m, p)
  }

  /** The length that is announced for the headers. */
  function HeadersLength(t: Tables, m: Media, p: Part): nat {
    |ValueLength(TypeLength(t, m))| + TypeLength(t, m) + |OtherFields(m, p)|
  }

  /** The lengths that the code computes in 32 bits. */
  predicate Sized(t: Tables, m: Media, p: Part) {
    HeadersLength(t, m, p) < 0x1_0000_0000 && |p.data| < 0x1_0000_0000
  }

  /** The charsets are known ones, and what is requested at once is never over 256 octets. */
  predicate Fits(t: Tables, m: Media, p: Part) {
    && (forall v :: v in ValuesNamed(m.parameters, CHARSET) ==> CharsetNumber(t, v).Some?)
    && |TypeBytes(t, m.name)| <= FB_SIZE
    && |NameField(m)| <= FB_SIZE && |IdField(p)| <= FB_SIZE && |LocationField(p)| <= FB_SIZE
    && |DispositionField(m, p)| <= FB_SIZE
  }

  // ------------------------------------------------- the lengths that are announced

  /** At most one charset and at most one name. */
  predicate OneEach(m: Media) {
    |ValuesNamed(m.parameters, CHARSET)| <= 1 && |ValuesNamed(m.parameters, NAME)| <= 1
  }

  lemma {:induction false} CharsetsAtLeast(t: Tables, values: seq<CString>)
    ensures CharsetsLength(t, values) >= |values|
  {
    if values != [] {
      CharsetsAtLeast(t, values[..|values| - 1]);
    }
  }

  lemma {:induction false} NamesAtLeast(values: seq<CString>)
    ensures NamesLength(values) >= |values|
  {
    if values != [] {
      NamesAtLeast(values[..|values| - 1]);
    }
  }

  lemma {:induction false} CharsetsCounted(t: Tables, m: Media)
    ensures var values := ValuesNamed(m.parameters, CHARSET);
      && CharsetsLength(t, values) >= |CharsetField(t, m)|
      && (CharsetsLength(t, values) == |CharsetField(t, m)| <==> |values| <= 1)
  {
    var values := ValuesNamed(m.parameters, CHARSET);
    if values != [] {
      CharsetsAtLeast(t, values[..|values| - 1]);
    }
  }

  lemma NamesCounted(m: Media)
    ensures var values := ValuesNamed(m.parameters, NAME);
      && NamesLength(values) >= |NameField(m)|
      && (NamesLength(values) == |NameField(m)| <==> |values| <= 1)
  {
    var values := ValuesNamed(m.parameters, NAME);
    if values != [] {
      NamesAtLeast(values[..|values| - 1]);
    }
  }

  /** Every charset and every name is counted, the last one of each is written. */
  lemma TypeLengthExact(t: Tables, m: Media)
    ensures TypeLength(t, m) >= |TypeValue(t, m)|
    ensures TypeLength(t, m) == |TypeValue(t, m)| <==> OneEach(m)
  {
    CharsetsCounted(t, m);
    NamesCounted(m);
  }

  lemma HeadersLengthExact(t: Tables, m: Media, p: Part)
    ensures HeadersLength(t, m, p) >= |Headers(t, m, p)|
    ensures HeadersLength(t, m, p) == |Headers(t, m, p)| <==> OneEach(m)
  {
    TypeLengthExact(t, m);
  }

  // -------------------------------------------------- inside the headers of a part

  datatype Taken = NotTaken | Taken(value: Bytes, rest: Bytes)

  /** A value that has its Value-length in front. */
  function TakeCounted(s: Bytes): (r: Taken)
    ensures r.Taken? ==> |r.rest| < |s|
  {
    var n := ReadValueLength(s);
    if n.Broken? then NotTaken
    else if n.value > |n.rest| then NotTaken
    else Taken(n.rest[..n.value], n.rest[n.value..])
  }

  function UpToNul(s: Bytes): (n: nat)
    ensures n <= |s|
  {
    if s == [] || s[0] == 0 then 0 else 1 + UpToNul(s[1..])
  }

  /** Any value, by its first octet (section 8.4.1.2 of WAP-230-WSP). */
  function TakeValue(s: Bytes): (r: Taken)
    ensures r.Taken? ==> |r.rest| < |s|
  {
    if s == [] then NotTaken
    else if s[0] <= 31 then TakeCounted(s)
    else if s[0] <= 127 then
      var n := UpToNul(s);
      if n == |s| then NotTaken else Taken(s[..n + 1], s[n + 1..])
    else Taken(s[..1], s[1..])
  }

  /** What the first octet says of a value. */
  datatype Kind = CountedValue | TextValue | ShortValue

  function KindOf(first: Byte): Kind {
    if first <= 31 then CountedValue else if first <= 127 then TextValue else ShortValue
  }

  datatype HeaderField = HeaderField(token: Byte, kind: Kind, value: Bytes)

  function ReadFields(s: Bytes): Option<seq<HeaderField>>
    decreases |s|
  {
    if s == [] then Some([])
    else
      match TakeValue(s[1..])
      case NotTaken => None
      case Taken(value, rest) =>
        match ReadFields(rest)
        case None => None
        case Some(others) => Some([HeaderField(s[0], KindOf(s[1]), value)] + others)
  }

  lemma CountedRead(value: Bytes, rest: Bytes)
    ensures TakeCounted(ValueLength(|value|) + (value + rest)) == Taken(value, rest)
  {
    ValueLengthRoundTrip(|value|, value + rest);
    assert (value + rest)[..|value|] == value;
    assert (value + rest)[|value|..] == rest;
  }

  /** The Value-length of the content type spans its own octets and no others. */
  lemma TypeSpan(t: Tables, m: Media, p: Part)
    ensures TakeCounted(Headers(t, m, p)) == Taken(TypeValue(t, m), OtherFields(m, p)) <==> OneEach(m)
  {
    hide TypeValue, OtherFields, TypeLength, OneEach;
    var value, others := TypeValue(t, m), OtherFields(m, p);
    var n := TypeLength(t, m);
    assert Headers(t, m, p) == ValueLength(n) + (value + others);
    ValueLengthRoundTrip(n, value + others);
    TypeLengthExact(t, m);
    if OneEach(m) {
      CountedRead(value, others);
    }
  }

  lemma {:induction false} NulTerminated(s: CString, rest: Bytes)
    ensures UpToNul(Raw(s) + [0] + rest) == |s|
  {
    if s != [] {
      NulTerminated(s[1..], rest);
      assert (Raw(s) + [0] + rest)[1..] == Raw(s[1..]) + [0] + rest;
    }
  }

  /** A NUL-terminated text that starts like one. */
  lemma TextTaken(s: CString, rest: Bytes)
    requires s != [] && 32 <= s[0] <= 127
    ensures TakeValue(Raw(s) + [0] + rest) == Taken(Raw(s) + [0], rest)
  {
    var all := Raw(s) + [0] + rest;
    NulTerminated(s, rest);
    assert all[..|s| + 1] == Raw(s) + [0];
    assert all[|s| + 1..] == rest;
  }

  function IdRead(p: Part): seq<HeaderField> {
    match p.contentId
    case Some(id) => [HeaderField(Token(HEADER_CONTENT_ID), TextValue, QuotedId(id))]
    case None => []
  }

  function LocationRead(p: Part): seq<HeaderField> {
    match p.location
    case Some(location) => [HeaderField(Token(HEADER_LOCATION), TextValue, TextBytes(location))]
    case None => []
  }

  function DispositionRead(m: Media, p: Part): seq<HeaderField> {
    match p.location
    case Some(location) =>
      if m.name == APPLICATION_SMIL then []
      else [HeaderField(Token(HEADER_DISPOSITION), CountedValue, DispositionValue(location))]
    case None => []
  }

  /** A field whose value is taken off in front of `rest`. */
  lemma {:induction false} FieldRead(token: Byte, bytes: Bytes, value: Bytes, rest: Bytes)
    requires bytes != [] && TakeValue(bytes + rest) == Taken(value, rest)
    ensures ReadFields(Field(token, bytes) + rest) ==
      match ReadFields(rest)
      case None => None
      case Some(others) => Some([HeaderField(Token(token), KindOf(bytes[0]), value)] + others)
  {
    hide TakeValue;
    var s := Field(token, bytes) + rest;
    assert s[0] == Token(token) && s[1] == bytes[0];
    assert s[1..] == bytes + rest;
  }

  lemma CountedIsValue(value: Bytes, rest: Bytes)
    ensures TakeValue(ValueLength(|value|) + (value + rest)) == Taken(value, rest)
  {
    hide TakeCounted;
    CountedRead(value, rest);
    assert (ValueLength(|value|) + (value + rest))[0] == ValueLength(|value|)[0] <= 31;
  }

  lemma DispositionReads(m: Media, p: Part)
    ensures ReadFields(DispositionField(m, p)) == Some(DispositionRead(m, p))
  {
    if p.location.Some? && m.name != APPLICATION_SMIL {
      hide TakeValue, ReadFields, DispositionValue;
      var value := DispositionValue(p.location.value);
      var bytes, none: Bytes := ValueLength(|value|) + value, [];
      CountedIsValue(value, none);
      assert value + none == value && bytes + none == bytes;
      FieldRead(HEADER_DISPOSITION, bytes, value, none);
      NothingRead();
      assert Field(HEADER_DISPOSITION, bytes) + none == DispositionField(m, p);
      assert KindOf(bytes[0]) == CountedValue;
      assert DispositionRead(m, p) + [] == DispositionRead(m, p);
    }
  }

  lemma NothingRead()
    ensures ReadFields([]) == Some([])
  {
  }

  predicate StartsText(s: CString) {
    s != [] && s[0] >= 32
  }

  predicate LocationStartsText(p: Part) {
    p.location.Some? ==> StartsText(p.location.value)
  }

  lemma StartedText(location: CString, rest: Bytes)
    requires StartsText(location)
    ensures TakeValue(TextBytes(location) + rest) == Taken(TextBytes(location), rest)
    ensures KindOf(TextBytes(location)[0]) == TextValue
  {
    var text: CString := (if location[0] >= 128 then [TEXT_QUOTE] else []) + location;
    assert TextBytes(location) == Raw(text) + [0];
    TextTaken(text, rest);
  }

  /** A text that starts with a low octet, or is empty, looks like a counted value. */
  lemma OtherText(location: CString)
    requires !StartsText(location)
    ensures KindOf(TextBytes(location)[0]) == CountedValue
  {
  }

  lemma IdTaken(id: CString, rest: Bytes)
    ensures TakeValue(QuotedId(id) + rest) == Taken(QuotedId(id), rest)
    ensures KindOf(QuotedId(id)[0]) == TextValue
  {
    var text: CString := [0x22, 0x3c] + id + [0x3e];
    assert QuotedId(id) == Raw(text) + [0];
    TextTaken(text, rest);
  }

  lemma {:induction false} FirstKind(token: Byte, bytes: Bytes, rest: Bytes)
    requires bytes != []
    ensures var read := ReadFields(Field(token, bytes) + rest);
      read.Some? ==> read.value != [] && read.value[0].kind == KindOf(bytes[0])
  {
    hide TakeValue;
    assert (Field(token, bytes) + rest)[1] == bytes[0];
  }

  lemma LocationReads(m: Media, p: Part)
    ensures ReadFields(LocationField(p) + DispositionField(m, p)) == Some(LocationRead(p) + DispositionRead(m, p))
      <==> LocationStartsText(p)
  {
    hide TakeValue, ReadFields, TextBytes, DispositionField, DispositionRead, StartsText;
    var rest := DispositionField(m, p);
    DispositionReads(m, p);
    match p.location
    case Some(location) =>
      assert TextBytes(location) != [] by {
        NeverEmpty(location);
      }
      if StartsText(location) {
        StartedText(location, rest);
        FieldRead(HEADER_LOCATION, TextBytes(location), TextBytes(location), rest);
      } else {
        OtherText(location);
        FirstKind(HEADER_LOCATION, TextBytes(location), rest);
        assert (LocationRead(p) + DispositionRead(m, p))[0].kind == TextValue;
      }
    case None =>
      assert LocationField(p) + rest == rest;
      assert LocationRead(p) + DispositionRead(m, p) == DispositionRead(m, p);
  }

  lemma NeverEmpty(location: CString)
    ensures TextBytes(location) != [] && QuotedId(location) != []
  {
  }

  lemma SameRest(one: HeaderField, a: seq<HeaderField>, b: seq<HeaderField>)
    ensures [one] + a == [one] + b <==> a == b
  {
    assert ([one] + a)[1..] == a && ([one] + b)[1..] == b;
  }

  /** A reader that knows the kinds of values and nothing else finds content id, location and
      disposition, each with its whole value, exactly when the location starts like a text. */
  lemma FieldsRead(m: Media, p: Part)
    ensures ReadFields(OtherFields(m, p)) == Some(IdRead(p) + LocationRead(p) + DispositionRead(m, p))
      <==> LocationStartsText(p)
  {
    hide TakeValue, ReadFields, LocationField, DispositionField, LocationRead, DispositionRead, QuotedId;
    var rest := LocationField(p) + DispositionField(m, p);
    var read := LocationRead(p) + DispositionRead(m, p);
    LocationReads(m, p);
    assert OtherFields(m, p) == IdField(p) + rest;
    assert IdRead(p) + LocationRead(p) + DispositionRead(m, p) == IdRead(p) + read;
    match p.contentId
    case Some(id) =>
      IdTaken(id, rest);
      NeverEmpty(id);
      FieldRead(HEADER_CONTENT_ID, QuotedId(id), QuotedId(id), rest);
      if ReadFields(rest).Some? {
        SameRest(IdRead(p)[0], ReadFields(rest).value, read);
      }
    case None =>
      assert IdField(p) + rest == rest && IdRead(p) + read == read;
  }

  // ------------------------------------------------------------ reading a text

  /** The characters of a text up to the NUL. */
  function Chars(b: Bytes): CString {
    if b == [] || b[0] == 0 then [] else [b[0]] + Chars(b[1..])
  }

  /** The text of a value, without a quote in front. */
  function Text(value: Bytes): CString {
    if value != [] && value[0] == TEXT_QUOTE then Chars(value[1..]) else Chars(value)
  }

  lemma {:induction false} CharsBack(s: CString, rest: Bytes)
    ensures Chars(Raw(s) + [0] + rest) == s
  {
    if s != [] {
      CharsBack(s[1..], rest);
      assert (Raw(s) + [0] + rest)[1..] == Raw(s[1..]) + [0] + rest;
    }
  }

  /** What becomes of a text: one that starts with the quote loses it. */
  function Unquoted(s: CString): CString {
    if s != [] && s[0] == TEXT_QUOTE then s[1..] else s
  }

  lemma TextBack(s: CString)
    ensures Text(TextBytes(s)) == Unquoted(s)
  {
    hide Chars;
    var none: Bytes := [];
    CharsBack(s, none);
    assert Raw(s) + [0] + none == Raw(s) + [0];
    if s != [] && s[0] >= 128 {
      assert TextBytes(s)[1..] == Raw(s) + [0];
    } else if s != [] && s[0] == TEXT_QUOTE {
      CharsBack(s[1..], none);
      assert TextBytes(s)[1..] == Raw(s[1..]) + [0] + none;
    } else {
      assert TextBytes(s) == Raw(s) + [0];
    }
  }

  /** What the disposition says: an attachment (octet 129), with a parameter of the number 6,
      which is a file name, that is as long as the location is with its quote. */
  lemma DispositionSays(location: CString)
    ensures DispositionValue(location)[..2] == [129, 128 + 6]
    ensures DispositionValue(location)[2..] == FileName(location)
    ensures |FileName(location)| == |TextBytes(location)|
  {
    assert DispositionValue(location) == [129, 134] + FileName(location);
  }

  /** A reader takes the file name as a text and gets the whole location. */
  predicate FileNameBack(location: CString) {
    var r := TakeValue(FileName(location));
    r.Taken? && r.rest == [] && KindOf(FileName(location)[0]).TextValue? && Text(r.value) == location
  }

  /** The file name in the disposition, which is not quoted, comes back exactly when the
      location starts with a printable octet below 127. */
  lemma FileNameRead(location: CString)
    ensures FileNameBack(location) <==> location != [] && 32 <= location[0] < 127
  {
    if location != [] && 32 <= location[0] <= 127 {
      var none: Bytes := [];
      assert FileName(location) == Raw(location) + [0] + none;
      TextTaken(location, none);
      assert TextBytes(location) == Raw(location) + [0];
      TextBack(location);
    }
  }

  // ------------------------------------------------------ what a receiver makes of it

  /** decode_text: the empty string may also be a counted value of no octets. */
  function DecodedText(f: HeaderField): Option<CString> {
    match f.kind
    case TextValue => Some(Text(f.value))
    case CountedValue => if f.value == [] then Some([]) else None
    case ShortValue => None
  }

  /** extract_quoted_string */
  function DecodedQuoted(f: HeaderField): Option<CString> {
    if f.kind == TextValue && f.value != [] && f.value[0] == 0x22 then Some(Chars(f.value[1..])) else None
  }

  /** What is known of a part. */
  datatype Info = Info(contentId: Option<CString>, location: Option<CString>)

  const NOTHING := Info(None, None)

  /** One header: nothing when its value cannot be decoded. */
  function Extracted(k: Info, f: HeaderField): Option<Info> {
    if f.token == Token(HEADER_CONTENT_ID) then
      var id := DecodedQuoted(f);
      if id.Some? then Some(k.(contentId := id)) else None
    else if f.token == Token(HEADER_LOCATION) then
      var location := DecodedText(f);
      if location.Some? then Some(k.(location := location)) else None
    else Some(k)
  }

  /** What was found, and what is left behind the last header that was looked at. */
  datatype ParsedHeaders = ParsedHeaders(info: Info, left: Bytes)

  /** attachment_parse_headers: up to the first value that cannot be taken or decoded. */
  function ParsedPart(k: Info, s: Bytes): ParsedHeaders
    decreases |s|
  {
    if s == [] then ParsedHeaders(k, [])
    else
      match TakeValue(s[1..])
      case NotTaken => ParsedHeaders(k, s)
      case Taken(value, rest) =>
        match Extracted(k, HeaderField(s[0], KindOf(s[1]), value))
        case None => ParsedHeaders(k, rest)
        case Some(next) => ParsedPart(next, rest)
  }

  /** The loop over the headers. */
  method ParsePart(s: Bytes) returns (k: Info, left: Bytes)
    ensures ParsedHeaders(k, left) == ParsedPart(NOTHING, s)
  {
    hide TakeValue, Extracted;
    k, left := NOTHING, s;
    while left != []
      invariant ParsedPart(NOTHING, s) == ParsedPart(k, left)
      decreases |left|
    {
      var taken := TakeValue(left[1..]);
      if taken.NotTaken? {
        return;
      }
      var next := Extracted(k, HeaderField(left[0], KindOf(left[1]), taken.value));
      left := taken.rest;
      if next.None? {
        return;
      }
      k := next.value;
    }
  }

  /** One header in front of `rest`. */
  lemma {:induction false} ParsedFirst(k: Info, token: Byte, bytes: Bytes, rest: Bytes)
    requires bytes != []
    ensures var taken := TakeValue(bytes + rest);
      ParsedPart(k, Field(token, bytes) + rest) ==
        if taken.NotTaken? then ParsedHeaders(k, Field(token, bytes) + rest)
        else
          var next := Extracted(k, HeaderField(Token(token), KindOf(bytes[0]), taken.value));
          if next.None? then ParsedHeaders(k, taken.rest) else ParsedPart(next.value, taken.rest)
  {
    hide TakeValue, Extracted;
    var s := Field(token, bytes) + rest;
    assert s[0] == Token(token) && s[1] == bytes[0];
    assert s[1..] == bytes + rest;
  }

  lemma {:induction false} DispositionParsed(k: Info, m: Media, p: Part)
    ensures ParsedPart(k, DispositionField(m, p)) == ParsedHeaders(k, [])
  {
    if p.location.Some? && m.name != APPLICATION_SMIL {
      hide TakeValue, ParsedPart, DispositionValue;
      var value := DispositionValue(p.location.value);
      var bytes, none: Bytes := ValueLength(|value|) + value, [];
      CountedIsValue(value, none);
      assert value + none == value && bytes + none == bytes;
      ParsedFirst(k, HEADER_DISPOSITION, bytes, none);
      assert Field(HEADER_DISPOSITION, bytes) + none == DispositionField(m, p);
      NothingParsed(k);
    }
  }

  lemma {:induction false} NothingParsed(k: Info)
    ensures ParsedPart(k, []) == ParsedHeaders(k, [])
  {
  }

  lemma {:induction false} MoreIsMore(n: nat, s: Bytes)
    ensures ReadMore(n, s).Read? ==> ReadMore(n, s).value >= n
    decreases |s|
  {
    if s != [] && s[0] >= 128 {
      MoreIsMore(n * 128 + (s[0] - 128), s[1..]);
    }
  }

  /** A number that starts among characters is zero only if it ends with the NUL after them. */
  lemma {:induction false} ZeroEnds(s: CString, rest: Bytes)
    ensures var r := ReadUintvar(Raw(s) + [0] + rest);
      r.Read? && r.value == 0 ==> r.rest == rest
  {
    var all := Raw(s) + [0] + rest;
    if s == [] {
      assert all[1..] == rest;
    } else {
      assert all[1..] == Raw(s[1..]) + [0] + rest;
      ZeroEnds(s[1..], rest);
      if s[0] > 128 {
        MoreIsMore(s[0] - 128, all[1..]);
      }
    }
  }

  /** A location that is read as a counted value is either a value that is no text, or an
      empty one that ends where the location ends. */
  lemma CountedLocation(location: CString, rest: Bytes)
    requires location != [] && location[0] < 32
    ensures var r := TakeValue(TextBytes(location) + rest);
      r.Taken? && r.value == [] ==> r.rest == rest
  {
    hide ReadUintvar;
    var all := TextBytes(location) + rest;
    assert all == Raw(location) + [0] + rest;
    assert all[1..] == Raw(location[1..]) + [0] + rest;
    ZeroEnds(location[1..], rest);
  }

  lemma EmptyLocation(rest: Bytes)
    ensures TakeValue(TextBytes([]) + rest) == Taken([], rest)
    ensures KindOf(TextBytes([])[0]) == CountedValue
  {
    assert (TextBytes([]) + rest)[1..] == rest;
    assert rest[..0] == [] && rest[0..] == rest;
  }

  /** A location that comes back as it is. */
  predicate Returns(location: CString) {
    location == [] || (location[0] >= 32 && location[0] != TEXT_QUOTE)
  }

  /** What is made of the location, with what comes behind it. */
  lemma {:induction false} LocationParsed(k: Info, m: Media, p: Part)
    requires k.location == None
    ensures var r := ParsedPart(k, LocationField(p) + DispositionField(m, p));
      && r.info.contentId == k.contentId
      && (r.info.location == p.location <==> p.location.Some? ==> Returns(p.location.value))
      && (r.info.location == p.location ==> r.left == [])
  {
    hide TakeValue, ParsedPart, TextBytes, DispositionField, Text;
    var rest := DispositionField(m, p);
    match p.location
    case None =>
      assert LocationField(p) + rest == rest;
      DispositionParsed(k, m, p);
    case Some(location) =>
      NeverEmpty(location);
      ParsedFirst(k, HEADER_LOCATION, TextBytes(location), rest);
      DispositionParsed(k.(location := Some([])), m, p);
      if location == [] {
        EmptyLocation(rest);
      } else if location[0] < 32 {
        OtherText(location);
        CountedLocation(location, rest);
      } else {
        StartedText(location, rest);
        TextBack(location);
        DispositionParsed(k.(location := Some(Unquoted(location))), m, p);
      }
  }

  function Bracketed(id: CString): CString {
    [0x3c] + id + [0x3e]
  }

  lemma QuotedBack(id: CString)
    ensures DecodedQuoted(HeaderField(Token(HEADER_CONTENT_ID), TextValue, QuotedId(id))) == Some(Bracketed(id))
  {
    var none: Bytes := [];
    CharsBack(Bracketed(id), none);
    assert QuotedId(id)[1..] == Raw(Bracketed(id)) + [0] + none;
  }

  /** A receiver knows the content id, in brackets, and it knows the location that was sent
      exactly when that is empty or starts with an octet of at least 32 other than 127; then
      nothing is left of the headers. */
  lemma PartParsed(m: Media, p: Part)
    ensures var r := ParsedPart(NOTHING, OtherFields(m, p));
      && r.info.contentId == (if p.contentId.Some? then Some(Bracketed(p.contentId.value)) else None)
      && (r.info.location == p.location <==> p.location.Some? ==> Returns(p.location.value))
      && (r.info.location == p.location ==> r.left == [])
  {
    hide TakeValue, ParsedPart, LocationField, DispositionField, QuotedId, DecodedQuoted;
    var rest := LocationField(p) + DispositionField(m, p);
    assert OtherFields(m, p) == IdField(p) + rest;
    match p.contentId
    case Some(id) =>
      IdTaken(id, rest);
      NeverEmpty(id);
      QuotedBack(id);
      ParsedFirst(NOTHING, HEADER_CONTENT_ID, QuotedId(id), rest);
      LocationParsed(NOTHING.(contentId := Some(Bracketed(id))), m, p);
    case None =>
      assert IdField(p) + rest == rest;
      LocationParsed(NOTHING, m, p);
  }

  // ------------------------------------------------- what a receiver makes of the type

  /** The tables the other way round: names of codes, and of numbers of character sets. */
  datatype Names = Names(types: Byte -> Option<CString>, charsets: nat -> Option<CString>)

  function NameOf(n: Names, code: Byte): Option<CString> {
    n.types(code)
  }

  function CharsetOf(n: Names, number: nat): Option<CString> {
    n.charsets(number)
  }

  datatype TextRead = NoText | TextRead(text: CString, rest: Bytes)

  /** A text up to its NUL. */
  function TakeText(s: Bytes): (r: TextRead)
    ensures r.TextRead? ==> |r.rest| < |s|
  {
    var n := UpToNul(s);
    if n == |s| then NoText else TextRead(Text(s), s[n + 1..])
  }

  /** wsp_decode_content_type: a code, or the name itself. */
  function TakeType(n: Names, s: Bytes): TextRead {
    if s == [] then NoText
    else if s[0] >= 128 then
      match NameOf(n, s[0])
      case None => NoText
      case Some(name) => TextRead(name, s[1..])
    else TakeText(s)
  }

  datatype TypeParameter = CharsetIs(number: nat) | TextIs(token: Byte, text: CString)

  predicate TextToken(b: Byte) {
    b == Token(TYPE_NAME) || b == Token(TYPE_CONTENT_TYPE) || b == Token(TYPE_START)
  }

  /** The parameters behind a content type. */
  function TakeParameters(s: Bytes): Option<seq<TypeParameter>>
    decreases |s|
  {
    if s == [] then Some([])
    else if s[0] == Token(TYPE_CHARSET) then
      var r := ReadInteger(s[1..]);
      if r.Broken? then None else Before(CharsetIs(r.value), TakeParameters(r.rest))
    else if TextToken(s[0]) then
      var r := TakeText(s[1..]);
      if r.NoText? then None else Before(TextIs(s[0], r.text), TakeParameters(r.rest))
    else None
  }

  function Before(p: TypeParameter, others: Option<seq<TypeParameter>>): Option<seq<TypeParameter>> {
    match others
    case None => None
    case Some(ps) => Some([p] + ps)
  }

  datatype TypeRead = TypeRead(name: CString, parameters: seq<TypeParameter>)

  function ReadType(n: Names, value: Bytes): Option<TypeRead> {
    match TakeType(n, value)
    case NoText => None
    case TextRead(name, rest) =>
      match TakeParameters(rest)
      case None => None
      case Some(ps) => Some(TypeRead(name, ps))
  }

  /** The name that a receiver has for a type: the type itself, if it has no code. */
  function Canonical(n: Names, t: Tables, name: CString): Option<CString> {
    match TypeCode(t, name)
    case None => Some(name)
    case Some(code) => NameOf(n, Token(code))
  }

  /** The charset and the name that are written, as a receiver has them. */
  function SentParameters(t: Tables, m: Media): seq<TypeParameter> {
    SentCharset(t, ValuesNamed(m.parameters, CHARSET)) + SentName(ValuesNamed(m.parameters, NAME))
  }

  function SentCharset(t: Tables, values: seq<CString>): seq<TypeParameter> {
    if values == [] then []
    else
      match CharsetNumber(t, values[|values| - 1])
      case None => []
      case Some(number) => [CharsetIs(number)]
  }

  function SentName(values: seq<CString>): seq<TypeParameter> {
    if values == [] then [] else [TextIs(Token(TYPE_NAME), Unquoted(values[|values| - 1]))]
  }

  predicate CharsetsKnown(t: Tables, m: Media) {
    forall v :: v in ValuesNamed(m.parameters, CHARSET) ==> CharsetNumber(t, v).Some?
  }

  lemma RawTakenBack(s: CString, rest: Bytes)
    ensures TakeText(Raw(s) + [0] + rest) == TextRead(Unquoted(s), rest)
  {
    hide Chars, UpToNul;
    var plain := Raw(s) + [0] + rest;
    NulTerminated(s, rest);
    CharsBack(s, rest);
    assert plain[|s| + 1..] == rest;
    if s != [] && s[0] == TEXT_QUOTE {
      CharsBack(s[1..], rest);
      assert plain[1..] == Raw(s[1..]) + [0] + rest;
    }
  }

  /** A text that is written with its NUL, quoted or not. */
  lemma TextTakenBack(s: CString, rest: Bytes)
    ensures TakeText(TextBytes(s) + rest) == TextRead(Unquoted(s), rest)
    ensures TakeText(Raw(s) + [0] + rest) == TextRead(Unquoted(s), rest)
  {
    hide TakeText;
    RawTakenBack(s, rest);
    if s != [] && s[0] >= 128 {
      var quoted: CString := [TEXT_QUOTE] + s;
      RawTakenBack(quoted, rest);
      assert TextBytes(s) == Raw(quoted) + [0];
      assert quoted[1..] == s;
    } else {
      assert TextBytes(s) == Raw(s) + [0];
    }
  }

  lemma {:induction false} TextParameterBack(token: Byte, bytes: Bytes, text: CString, rest: Bytes)
    requires TakeText(bytes + rest) == TextRead(text, rest) && TextToken(Token(token))
    ensures TakeParameters(Field(token, bytes) + rest) == Before(TextIs(Token(token), text), TakeParameters(rest))
  {
    hide TakeText;
    var s := Field(token, bytes) + rest;
    assert s[0] == Token(token) && s[1..] == bytes + rest;
  }

  lemma {:induction false} CharsetBack(number: Word, rest: Bytes)
    ensures TakeParameters(Field(TYPE_CHARSET, IntegerValue(number)) + rest)
      == Before(CharsetIs(number), TakeParameters(rest))
  {
    hide IntegerValue;
    IntegerRoundTrip(number, rest);
    var s := Field(TYPE_CHARSET, IntegerValue(number)) + rest;
    assert s[0] == Token(TYPE_CHARSET) && s[1..] == IntegerValue(number) + rest;
  }

  lemma ParametersBack(t: Tables, m: Media)
    requires CharsetsKnown(t, m)
    ensures TakeParameters(CharsetField(t, m) + NameField(m)) == Some(SentParameters(t, m))
  {
    hide TakeParameters, IntegerValue, TextBytes, Unquoted, TakeText;
    var charsets, names := ValuesNamed(m.parameters, CHARSET), ValuesNamed(m.parameters, NAME);
    var none: Bytes := [];
    NoParameters();
    if names != [] {
      var name := names[|names| - 1];
      TextTakenBack(name, none);
      TextParameterBack(TYPE_NAME, TextBytes(name), Unquoted(name), none);
      assert NameField(m) + none == NameField(m);
      assert SentName(names) + [] == SentName(names);
    }
    assert TakeParameters(NameField(m)) == Some(SentName(names));
    if charsets != [] {
      var charset := charsets[|charsets| - 1];
      assert charset in charsets;
      CharsetBack(CharsetNumber(t, charset).value, NameField(m));
    } else {
      assert none + NameField(m) == NameField(m);
      assert [] + SentName(names) == SentName(names);
    }
  }

  lemma NoParameters()
    ensures TakeParameters([]) == Some([])
  {
  }

  /** A name with a code is read by its code, any other as it is. */
  lemma TypeBack(n: Names, t: Tables, name: CString, rest: Bytes)
    requires name != [] && name[0] < TEXT_QUOTE
    ensures TakeType(n, TypeBytes(t, name) + rest) ==
      if Canonical(n, t, name).None? then NoText else TextRead(Canonical(n, t, name).value, rest)
  {
    hide TakeText;
    match TypeCode(t, name)
    case Some(code) =>
      var s := TypeBytes(t, name) + rest;
      assert s[0] == Token(code) && s[1..] == rest;
    case None => TextTakenBack(name, rest);
  }

  lemma NamePrintable(name: CString)
    requires IsName(name)
    ensures name != [] && name[0] < TEXT_QUOTE
  {
    var t, u :| IsToken(t) && IsToken(u) && name == t + [SLASH] + u;
    assert name[0] == t[0] && t[0] in t;
  }

  /** A receiver gets the type, its charset and its name back: the last of each. */
  lemma TypeReads(n: Names, t: Tables, m: Media)
    requires IsName(m.name) && CharsetsKnown(t, m)
    ensures ReadType(n, TypeValue(t, m)) ==
      if Canonical(n, t, m.name).None? then None
      else Some(TypeRead(Canonical(n, t, m.name).value, SentParameters(t, m)))
  {
    hide TakeType, TakeParameters, TypeBytes, CharsetField, NameField, SentParameters, IsName;
    NamePrintable(m.name);
    TypeBack(n, t, m.name, CharsetField(t, m) + NameField(m));
    ParametersBack(t, m);
    Regroup(TypeBytes(t, m.name), CharsetField(t, m), NameField(m));
  }

  /** The tables are inverse to each other for the types that have a code. */
  ghost predicate Inverse(n: Names, t: Tables) {
    forall name :: TypeCode(t, name).Some? ==> NameOf(n, Token(TypeCode(t, name).value)) == Some(name)
  }

  /** The name that is read back is the name that was sent. */
  lemma CanonicalIs(n: Names, t: Tables, name: CString)
    ensures TypeCode(t, name).None? || Inverse(n, t) ==> Canonical(n, t, name) == Some(name)
  {
  }

  // ------------------------------------------------------------------ a whole part

  datatype Arrival = Arrival(contentType: TypeRead, info: Info)

  /** What a receiver takes from the headers of a part. A message with a part whose type cannot
      be decoded, or whose headers are not read to their end, is refused. */
  function Received(n: Names, headers: Bytes): Option<Arrival> {
    match TakeCounted(headers)
    case NotTaken => None
    case Taken(value, rest) =>
      var t := ReadType(n, value);
      var r := ParsedPart(NOTHING, rest);
      if t.Some? && r.left == [] then Some(Arrival(t.value, r.info)) else None
  }

  /** What it should know. */
  function Announced(p: Part): Info {
    Info(if p.contentId.Some? then Some(Bracketed(p.contentId.value)) else None, p.location)
  }

  /** Content type, charset, name, content id and location: all that is sent is known, exactly
      when the location is one that comes back, and the receiver has a name for the type. */
  lemma HeadersReceived(n: Names, t: Tables, m: Media, p: Part)
    requires OneEach(m) && IsName(m.name) && CharsetsKnown(t, m)
    ensures var name := Canonical(n, t, m.name);
      if name.None? then Received(n, Headers(t, m, p)).None?
      else
        Received(n, Headers(t, m, p))
          == Some(Arrival(TypeRead(name.value, SentParameters(t, m)), Announced(p)))
        <==> p.location.Some? ==> Returns(p.location.value)
  {
    hide TakeCounted, ParsedPart, ReadType, TypeValue, Headers, OtherFields, OneEach, SentParameters, IsName,
         CharsetsKnown, Canonical;
    TypeSpan(t, m, p);
    TypeReads(n, t, m);
    PartParsed(m, p);
  }

  // ------------------------------------------------------- the type as a text again

  /** ";charset=" */
  const CHARSET_PARAMETER: CString := [SEMICOLON] + CHARSET + [EQUALS]

  function FirstCharset(n: Names, ps: seq<TypeParameter>): Option<CString> {
    if ps == [] then None
    else if ps[0].CharsetIs? then CharsetOf(n, ps[0].number)
    else FirstCharset(n, ps[1..])
  }

  /** The content type of the attachment, as mms_parse_attachments puts it together. */
  function TypeText(n: Names, r: TypeRead): CString {
    match FirstCharset(n, r.parameters)
    case None => r.name
    case Some(charset) => r.name + CHARSET_PARAMETER + charset
  }

  lemma PlainParses(t: CString, u: CString)
    requires IsToken(t) && IsToken(u)
    ensures Parse(t + [SLASH] + u) == Some(Media(t + [SLASH] + u, []))
  {
    hide Parse, IsToken;
    var none: CString := [];
    var f := G.Form(none, t, none, none, u, none, []);
    G.FormParsed(f);
    assert G.FormText(f) == t + [SLASH] + u;
    assert G.FormMeant(f).parameters == [];
  }

  lemma WithCharsetParses(t: CString, u: CString, charset: CString)
    requires IsToken(t) && IsToken(u) && IsToken(charset)
    ensures Parse(t + [SLASH] + u + CHARSET_PARAMETER + charset)
      == Some(Media(t + [SLASH] + u, [Parameter(CHARSET, charset)]))
  {
    hide Parse, IsToken, CHARSET_PARAMETER, CHARSET;
    var none: CString := [];
    var w := G.Written(none, CHARSET, none, none, G.Bare(charset), none);
    var f := G.Form(none, t, none, none, u, none, [w]);
    CharsetIsToken();
    G.FormParsed(f);
    assert G.AllText([w][1..]) == none;
    assert G.WrittenText(w, none) == CHARSET + [EQUALS] + charset;
    assert G.AllText([w]) == [SEMICOLON] + G.WrittenText(w, none);
    CharsetText(charset);
    assert G.FormText(f) == t + [SLASH] + u + CHARSET_PARAMETER + charset;
    assert G.FormMeant(f).parameters == [Parameter(CHARSET, charset)];
  }

  /** What is put together can be taken apart again: the same type, and its charset. */
  lemma {:induction false} TypeTextParses(n: Names, r: TypeRead)
    requires IsName(r.name)
    requires FirstCharset(n, r.parameters).Some? ==> IsToken(FirstCharset(n, r.parameters).value)
    ensures Parse(TypeText(n, r)) == Some(Media(r.name,
      match FirstCharset(n, r.parameters)
      case None => []
      case Some(charset) => [Parameter(CHARSET, charset)]))
  {
    hide Parse, IsToken, FirstCharset;
    var t, u :| IsToken(t) && IsToken(u) && r.name == t + [SLASH] + u;
    match FirstCharset(n, r.parameters)
    case None => PlainParses(t, u);
    case Some(charset) => WithCharsetParses(t, u, charset);
  }

  lemma CharsetText(charset: CString)
    ensures CHARSET_PARAMETER + charset == [SEMICOLON] + (CHARSET + [EQUALS] + charset)
  {
  }

  lemma CharsetIsToken()
    ensures IsToken(CHARSET)
  {
  }
}
