/**
  mms_encode_send_req_part and the loop over the attachments in mms_encode_send_req: the
  multipart body is written through the 256-octet buffer, and every attachment learns where
  in the file its data went.
*/
module MultipartWriter {
  import opened Common
  import opened Wsp
  import opened FileBuffer
  import opened MediaType
  import opened MultipartBody
  import opened PartHeader

  class Attachment {
    const part: Part
    var offset: nat

    constructor (part: Part)
      ensures this.part == part
    {
      this.part := part;
      offset := 0;
    }
  }

  function Pack(t: Tables, m: Media, p: Part): Item {
    Item(HeadersLength(t, m, p), Headers(t, m, p), p.data)
  }

  /** Whether a part can be encoded at all. */
  predicate Encodable(t: Tables, p: Part) {
    var m := Parse(p.contentType);
    m.Some? && Fits(t, m.value, p)
  }

  predicate Sizes(t: Tables, p: Part) {
    var m := Parse(p.contentType);
    m.Some? ==> Sized(t, m.value, p)
  }

  function Packed(t: Tables, p: Part): Item
    requires Encodable(t, p)
  {
    Pack(t, Parse(p.contentType).value, p)
  }

  function Last(values: seq<CString>): Option<CString> {
    if values == [] then None else Some(values[|values| - 1])
  }

  predicate Known(t: Tables, values: seq<CString>) {
    forall v :: v in values ==> CharsetNumber(t, v).Some?
  }

  function LastCharsetBytes(t: Tables, values: seq<CString>): Bytes {
    if values == [] then [] else CharsetBytes(t, values[|values| - 1])
  }

  lemma {:induction false} LengthsNext(t: Tables, values: seq<CString>, v: CString)
    ensures NamesLength(values + [v]) == NamesLength(values) + 1 + |TextBytes(v)|
    ensures CharsetsLength(t, values + [v]) == CharsetsLength(t, values) + 1 + |CharsetBytes(t, v)|
  {
    assert (values + [v])[..|values|] == values;
  }

  /** The loop over the parameters that computes the length of the content type. */
  method MeasureType(t: Tables, m: Media) returns (ok: bool, len: nat, charset: Bytes, name: Option<CString>)
    ensures ok <==> Known(t, ValuesNamed(m.parameters, CHARSET))
    ensures ok ==> len == TypeLength(t, m)
    ensures ok ==> charset == LastCharsetBytes(t, ValuesNamed(m.parameters, CHARSET))
    ensures ok ==> name == Last(ValuesNamed(m.parameters, NAME))
  {
    ok, len, charset, name := true, |TypeBytes(t, m.name)|, [], None;
    var ps := m.parameters;
    ghost var charsets, names: seq<CString> := [], [];
    for i := 0 to |ps|
      invariant charsets == ValuesNamed(ps[..i], CHARSET) && names == ValuesNamed(ps[..i], NAME)
      invariant Known(t, charsets)
      invariant len == |TypeBytes(t, m.name)| + CharsetsLength(t, charsets) + NamesLength(names)
      invariant charset == LastCharsetBytes(t, charsets)
      invariant name == Last(names)
    {
      NextParameter(ps, i, CHARSET);
      NextParameter(ps, i, NAME);
      var value := ps[i].value;
      if Named(ps[i].attribute, CHARSET) {
        var number := CharsetNumber(t, value);
        if number.None? {
          OneUnknown(t, ps, i);
          return false, len, charset, name;
        }
        LengthsNext(t, charsets, value);
        charset := IntegerValue(number.value);
        len := len + 1 + |charset|;
        charsets := charsets + [value];
      } else if Named(ps[i].attribute, NAME) {
        LengthsNext(t, names, value);
        name := Some(value);
        len := len + 1 + |TextBytes(value)|;
        names := names + [value];
      }
    }
    assert ps[..|ps|] == ps;
  }

  lemma {:induction false} NextParameter(ps: seq<Parameter>, i: nat, key: CString)
    requires i < |ps|
    ensures ValuesNamed(ps[..i + 1], key)
      == ValuesNamed(ps[..i], key) + (if Named(ps[i].attribute, key) then [ps[i].value] else [])
  {
    assert ps[..i + 1] == ps[..i] + [ps[i]];
    ValuesNamedConcat(ps[..i], [ps[i]], key);
  }

  lemma {:induction false} OneUnknown(t: Tables, ps: seq<Parameter>, i: nat)
    requires i < |ps| && Named(ps[i].attribute, CHARSET) && CharsetNumber(t, ps[i].value).None?
    ensures !Known(t, ValuesNamed(ps, CHARSET))
  {
    hide ValuesNamed, Named;
    NextParameter(ps, i, CHARSET);
    assert ps == ps[..i + 1] + ps[i + 1..];
    ValuesNamedConcat(ps[..i + 1], ps[i + 1..], CHARSET);
    assert ps[i].value in ValuesNamed(ps, CHARSET);
  }

  lemma CharsetShort(t: Tables, values: seq<CString>)
    ensures |LastCharsetBytes(t, values)| <= 5
  {
    if values != [] {
      match CharsetNumber(t, values[|values| - 1])
      case Some(number) => OctetsShort(number);
      case None =>
    }
  }

  lemma CharsetWritten(t: Tables, m: Media)
    requires Known(t, ValuesNamed(m.parameters, CHARSET))
    ensures var charset := LastCharsetBytes(t, ValuesNamed(m.parameters, CHARSET));
      CharsetField(t, m) == Optional(TYPE_CHARSET, charset)
  {
    var values := ValuesNamed(m.parameters, CHARSET);
    if values != [] {
      assert CharsetNumber(t, values[|values| - 1]).Some?;
    }
  }

  function Optional(token: Byte, value: Bytes): Bytes {
    if value == [] then [] else Field(token, value)
  }

  method PutOptional(token: Byte, value: Bytes, fb: Buffer) returns (ok: bool)
    requires fb.Valid() && |value| < FB_SIZE
    modifies fb, fb.buf
    ensures ok ==> fb.Valid() && fb.Contents() == old(fb.Contents()) + Optional(token, value)
    ensures ok ==> fb.Capacity() == old(fb.Capacity()) - |Optional(token, value)|
    ensures old(fb.Capacity()) >= 0 ==> ok
  {
    hide Optional, Token;
    OptionalIs(token, value);
    ok := true;
    if value != [] {
      ok := fb.PutField(token, value);
    } else {
      assert fb.Contents() + [] == fb.Contents();
    }
  }

  lemma OptionalIs(token: Byte, value: Bytes)
    ensures Optional(token, value) == if value == [] then [] else [Token(token)] + value
  {
  }

  method WriteName(m: Media, name: Option<CString>, fb: Buffer) returns (ok: bool)
    requires fb.Valid()
    requires name == Last(ValuesNamed(m.parameters, NAME))
    modifies fb, fb.buf
    ensures ok ==> fb.Valid() && fb.Contents() == old(fb.Contents()) + NameField(m)
    ensures ok ==> fb.Capacity() == old(fb.Capacity()) - |NameField(m)| && |NameField(m)| <= FB_SIZE
    ensures old(fb.Capacity()) >= 0 && |NameField(m)| <= FB_SIZE ==> ok
  {
    ok := true;
    if name.Some? {
      ok := fb.PutField(TYPE_NAME, TextBytes(name.value));
    }
  }

  predicate TypeFits(t: Tables, m: Media) {
    |TypeBytes(t, m.name)| <= FB_SIZE && |NameField(m)| <= FB_SIZE
  }

  /** The content type with its Value-length in front. */
  method WriteType(t: Tables, m: Media, len: nat, charset: Bytes, name: Option<CString>, fb: Buffer)
    returns (ok: bool)
    requires fb.Valid() && len < 0x1_0000_0000
    requires charset == LastCharsetBytes(t, ValuesNamed(m.parameters, CHARSET))
    requires name == Last(ValuesNamed(m.parameters, NAME))
    requires Known(t, ValuesNamed(m.parameters, CHARSET))
    modifies fb, fb.buf
    ensures ok ==> fb.Valid() && fb.Contents() == old(fb.Contents()) + ValueLength(len) + TypeValue(t, m)
    ensures ok ==> fb.Capacity() == old(fb.Capacity()) - |ValueLength(len)| - |TypeValue(t, m)|
    ensures ok ==> TypeFits(t, m)
    ensures old(fb.Capacity()) >= |ValueLength(len)| + |TypeValue(t, m)| && TypeFits(t, m) ==> ok
  {
    UintvarFits(len);
    CharsetWritten(t, m);
    CharsetShort(t, ValuesNamed(m.parameters, CHARSET));
    var code := TypeBytes(t, m.name);
    ok := fb.Put(ValueLength(len));
    if ok {
      ok := fb.Put(code);
      if ok {
        ok := PutOptional(TYPE_CHARSET, charset, fb);
        if ok {
          ok := WriteName(m, name, fb);
        }
      }
    }
    FieldsGrouped(old(fb.Contents()) + ValueLength(len), code, CharsetField(t, m), NameField(m));
  }

  lemma FieldsGrouped(a: Bytes, b: Bytes, c: Bytes, d: Bytes)
    ensures a + b + c + d == a + (b + c + d)
  {
  }

  method WriteId(p: Part, fb: Buffer) returns (ok: bool)
    requires fb.Valid()
    modifies fb, fb.buf
    ensures ok ==> fb.Valid() && fb.Contents() == old(fb.Contents()) + IdField(p)
    ensures ok ==> fb.Capacity() == old(fb.Capacity()) - |IdField(p)| && |IdField(p)| <= FB_SIZE
    ensures old(fb.Capacity()) >= 0 && |IdField(p)| <= FB_SIZE ==> ok
  {
    ok := true;
    if p.contentId.Some? {
      ok := fb.PutField(HEADER_CONTENT_ID, QuotedId(p.contentId.value));
    }
  }

  method WriteLocation(p: Part, fb: Buffer) returns (ok: bool)
    requires fb.Valid()
    modifies fb, fb.buf
    ensures ok ==> fb.Valid() && fb.Contents() == old(fb.Contents()) + LocationField(p)
    ensures ok ==> fb.Capacity() == old(fb.Capacity()) - |LocationField(p)| && |LocationField(p)| <= FB_SIZE
    ensures old(fb.Capacity()) >= 0 && |LocationField(p)| <= FB_SIZE ==> ok
  {
    ok := true;
    if p.location.Some? {
      ok := fb.PutField(HEADER_LOCATION, TextBytes(p.location.value));
    }
  }

  method WriteDisposition(m: Media, p: Part, fb: Buffer) returns (ok: bool)
    requires fb.Valid()
    modifies fb, fb.buf
    ensures ok ==> fb.Valid() && fb.Contents() == old(fb.Contents()) + DispositionField(m, p)
    ensures ok ==> fb.Capacity() == old(fb.Capacity()) - |DispositionField(m, p)|
    ensures ok ==> |DispositionField(m, p)| <= FB_SIZE
    ensures old(fb.Capacity()) >= 0 && |DispositionField(m, p)| <= FB_SIZE ==> ok
  {
    ok := true;
    if m.name != APPLICATION_SMIL && p.location.Some? {
      var value := DispositionValue(p.location.value);
      ok := fb.PutField(HEADER_DISPOSITION, ValueLength(|value|) + value);
    }
  }

  predicate OthersFit(m: Media, p: Part) {
    |IdField(p)| <= FB_SIZE && |LocationField(p)| <= FB_SIZE && |DispositionField(m, p)| <= FB_SIZE
  }

  /** Content id, location and disposition. */
  method WriteOthers(m: Media, p: Part, fb: Buffer) returns (ok: bool)
    requires fb.Valid()
    modifies fb, fb.buf
    ensures ok ==> fb.Valid() && fb.Contents() == old(fb.Contents()) + OtherFields(m, p)
    ensures ok ==> fb.Capacity() == old(fb.Capacity()) - |OtherFields(m, p)| && OthersFit(m, p)
    ensures old(fb.Capacity()) >= |OtherFields(m, p)| && OthersFit(m, p) ==> ok
  {
    ok := WriteId(p, fb);
    if ok {
      ok := WriteLocation(p, fb);
      if ok {
        ok := WriteDisposition(m, p, fb);
      }
    }
    FieldsGrouped(old(fb.Contents()), IdField(p), LocationField(p), DispositionField(m, p));
  }

  /** mms_encode_send_req_part_header */
  method WriteHeader(t: Tables, p: Part, fb: Buffer) returns (ok: bool)
    requires fb.Valid() && Sizes(t, p)
    modifies fb, fb.buf
    ensures ok ==> Encodable(t, p) && fb.Valid()
    ensures ok ==> fb.Contents() == old(fb.Contents()) + Front(Packed(t, p))
    ensures ok ==> fb.Capacity() == old(fb.Capacity()) - |Front(Packed(t, p))|
    ensures Encodable(t, p) && old(fb.Capacity()) >= |Front(Packed(t, p))| ==> ok
  {
    var parsed := Parse(p.contentType);
    if parsed.None? {
      return false;
    }
    var m := parsed.value;
    var len, charset, name;
    ok, len, charset, name := MeasureType(t, m);
    if !ok {
      return;
    }
    var others := |OtherFields(m, p)|;
    var total := |ValueLength(len)| + len + others;
    ok := fb.PutUintvar(total);
    if ok {
      ok := fb.PutUintvar(|p.data|);
      if ok {
        ok := WriteType(t, m, len, charset, name, fb);
        if ok {
          ok := WriteOthers(m, p, fb);
        }
      }
    }
    FrontIs(old(fb.Contents()), t, m, p);
  }

  /** Front(Pack(…)) in the order of the writes. */
  lemma FrontIs(before: Bytes, t: Tables, m: Media, p: Part)
    ensures before + Front(Pack(t, m, p))
      == before + Uintvar(HeadersLength(t, m, p)) + Uintvar(|p.data|)
        + ValueLength(TypeLength(t, m)) + TypeValue(t, m) + OtherFields(m, p)
    ensures |Front(Pack(t, m, p))|
      == |Uintvar(HeadersLength(t, m, p))| + |Uintvar(|p.data|)|
        + |ValueLength(TypeLength(t, m))| + |TypeValue(t, m)| + |OtherFields(m, p)|
  {
    FrontJoin(before, Uintvar(HeadersLength(t, m, p)), Uintvar(|p.data|),
              ValueLength(TypeLength(t, m)), TypeValue(t, m), OtherFields(m, p));
  }

  lemma FrontJoin(a: Bytes, b: Bytes, c: Bytes, d: Bytes, e: Bytes, f: Bytes)
    ensures a + (b + c + (d + e + f)) == a + b + c + d + e + f
  {
    assert (b + c) + (d + e + f) == b + c + d + e + f;
  }

  // ---------------------------------------------------------- all the attachments

  predicate AllEncodable(t: Tables, parts: seq<Part>) {
    forall k :: 0 <= k < |parts| ==> Encodable(t, parts[k])
  }

  function Items(t: Tables, parts: seq<Part>): seq<Item>
    requires AllEncodable(t, parts)
  {
    seq(|parts|, k requires 0 <= k < |parts| => Packed(t, parts[k]))
  }

  /** mms_encode_send_req_part: the data goes to the file behind the headers. */
  method WritePart(t: Tables, a: Attachment, fb: Buffer) returns (ok: bool)
    requires fb.Valid() && Sizes(t, a.part)
    modifies fb, fb.buf, a
    ensures ok ==> Encodable(t, a.part) && fb.Valid()
    ensures ok ==> fb.Contents() == old(fb.Contents()) + ItemBytes(Packed(t, a.part))
    ensures ok ==> fb.Capacity() == old(fb.Capacity()) - |ItemBytes(Packed(t, a.part))|
    ensures ok ==> a.offset == |old(fb.Contents())| + |Front(Packed(t, a.part))|
    ensures Encodable(t, a.part) && old(fb.Capacity()) >= |ItemBytes(Packed(t, a.part))| ==> ok
  {
    ok := WriteHeader(t, a.part, fb);
    if ok {
      ItemIs(old(fb.Contents()), Packed(t, a.part));
      a.offset := fb.GetFileSize();
      ok := fb.Copy(a.part.data);
    } else if Encodable(t, a.part) {
      ItemIs(old(fb.Contents()), Packed(t, a.part));
    }
  }

  lemma ItemIs(before: Bytes, i: Item)
    ensures before + ItemBytes(i) == before + Front(i) + i.data
    ensures |ItemBytes(i)| == |Front(i)| + |i.data|
  {
  }

  function Parts(attachments: seq<Attachment>): seq<Part> {
    seq(|attachments|, k requires 0 <= k < |attachments| => attachments[k].part)
  }

  lemma NextItem(t: Tables, parts: seq<Part>, k: nat)
    requires k < |parts| && AllEncodable(t, parts[..k]) && Encodable(t, parts[k])
    ensures AllEncodable(t, parts[..k + 1])
    ensures Items(t, parts[..k + 1]) == Items(t, parts[..k]) + [Packed(t, parts[k])]
    ensures Entries(Items(t, parts[..k + 1])) == Entries(Items(t, parts[..k])) + ItemBytes(Packed(t, parts[k]))
  {
    hide Encodable, Packed, ItemBytes;
    assert parts[..k + 1] == parts[..k] + [parts[k]];
    assert Items(t, parts[..k + 1]) == Items(t, parts[..k]) + [Packed(t, parts[k])];
    EntriesLast(Items(t, parts[..k]), Packed(t, parts[k]));
  }

  lemma {:induction false} PrefixShorter(t: Tables, parts: seq<Part>, k: nat)
    requires k <= |parts| && AllEncodable(t, parts)
    ensures |Entries(Items(t, parts[..k]))| <= |Entries(Items(t, parts))|
    decreases |parts| - k
  {
    hide Encodable, Packed, ItemBytes;
    if k == |parts| {
      assert parts[..k] == parts;
    } else {
      NextItem(t, parts, k);
      PrefixShorter(t, parts, k + 1);
    }
  }

  /** One turn of the loop, with the attachments so far and the bytes before the entries. */
  method WriteNext(t: Tables, attachments: seq<Attachment>, k: nat, ghost start: Bytes, fb: Buffer)
    returns (ok: bool)
    requires k < |attachments| && fb.Valid() && Sizes(t, attachments[k].part)
    requires AllEncodable(t, Parts(attachments)[..k])
    requires fb.Contents() == start + Entries(Items(t, Parts(attachments)[..k]))
    modifies fb, fb.buf, attachments[k]
    ensures ok ==> fb.Valid() && AllEncodable(t, Parts(attachments)[..k + 1])
    ensures ok ==> fb.Contents() == start + Entries(Items(t, Parts(attachments)[..k + 1]))
    ensures ok ==> fb.Capacity() - old(fb.Capacity()) == |old(fb.Contents())| - |fb.Contents()|
    ensures ok ==> attachments[k].offset == |old(fb.Contents())| + |Front(Packed(t, attachments[k].part))|
    ensures AllEncodable(t, Parts(attachments)) ==>
      old(fb.Capacity()) >= |start| + |Entries(Items(t, Parts(attachments)))| - |old(fb.Contents())| ==> ok
  {
    hide Encodable, Packed, ItemBytes, Front, Sizes;
    ghost var parts := Parts(attachments);
    ok := WritePart(t, attachments[k], fb);
    if Encodable(t, parts[k]) {
      NextItem(t, parts, k);
      if AllEncodable(t, parts) {
        PrefixShorter(t, parts, k + 1);
      }
    }
  }

  predicate Distinct(attachments: seq<Attachment>) {
    forall i, j :: 0 <= i < j < |attachments| ==> attachments[i] != attachments[j]
  }

  /** Where the data of part `k` starts among the entries. */
  function DataStart(t: Tables, parts: seq<Part>, k: nat): nat
    requires k < |parts| && AllEncodable(t, parts[..k]) && Encodable(t, parts[k])
  {
    |Entries(Items(t, parts[..k]))| + |Front(Packed(t, parts[k]))|
  }

  lemma OffsetsRecovered(t: Tables, parts: seq<Part>, at: nat)
    requires AllEncodable(t, parts)
    ensures |Recovered(at, Items(t, parts))| == |parts|
    ensures forall k :: 0 <= k < |parts| ==>
      Recovered(at, Items(t, parts))[k].offset == at + |Uintvar(|parts|)| + DataStart(t, parts, k)
  {
    hide Encodable, Packed, ItemBytes, Front;
    var items := Items(t, parts);
    if parts != [] {
      WrittenAt(at + |Uintvar(|parts|)|, items, 0);
    }
    forall k | 0 <= k < |parts|
      ensures Recovered(at, items)[k].offset == at + |Uintvar(|parts|)| + DataStart(t, parts, k)
    {
      WrittenAt(at + |Uintvar(|parts|)|, items, k);
      assert items[..k] == Items(t, parts[..k]);
    }
  }

  lemma NoneYet(t: Tables, parts: seq<Part>)
    ensures AllEncodable(t, parts[..0]) && Entries(Items(t, parts[..0])) == []
  {
  }

  /** The loop over the attachments. */
  method WriteEntries(t: Tables, attachments: seq<Attachment>, fb: Buffer) returns (ok: bool)
    requires fb.Valid() && Distinct(attachments)
    requires forall k :: 0 <= k < |attachments| ==> Sizes(t, attachments[k].part)
    modifies fb, fb.buf, attachments
    ensures ok ==> fb.Valid() && AllEncodable(t, Parts(attachments))
    ensures ok ==> fb.Contents() == old(fb.Contents()) + Entries(Items(t, Parts(attachments)))
    ensures ok ==> fb.Capacity() == old(fb.Capacity()) - |Entries(Items(t, Parts(attachments)))|
    ensures ok ==> forall k :: 0 <= k < |attachments| ==>
      attachments[k].offset == |old(fb.Contents())| + DataStart(t, Parts(attachments), k)
    ensures AllEncodable(t, Parts(attachments)) ==>
      old(fb.Capacity()) >= |Entries(Items(t, Parts(attachments)))| ==> ok
  {
    hide Encodable, Packed, ItemBytes, Front, Sizes, Entries, Items;
    ghost var parts := Parts(attachments);
    ghost var start := fb.Contents();
    NoneYet(t, parts);
    for k := 0 to |attachments|
      invariant fb.Valid() && AllEncodable(t, parts[..k])
      invariant fb.Contents() == start + Entries(Items(t, parts[..k]))
      invariant fb.Capacity() + |fb.Contents()| == old(fb.Capacity()) + |start|
      invariant forall j :: 0 <= j < k ==> attachments[j].offset == |start| + DataStart(t, parts, j)
    {
      ok := WriteNext(t, attachments, k, start, fb);
      if !ok { return; }
      assert parts[..k + 1][..k] == parts[..k];
    }
    ok := true;
    assert parts[..|parts|] == parts;
  }

  /** The part of mms_encode_send_req behind the headers. It succeeds exactly when every part
      can be encoded and the device takes it all. Then the file holds the body behind what was
      emitted before, and every attachment knows its offset in the file. */
  method WriteBody(t: Tables, attachments: seq<Attachment>, fb: Buffer) returns (ok: bool)
    requires fb.Valid() && Distinct(attachments) && |attachments| < 0x1_0000_0000
    requires forall k :: 0 <= k < |attachments| ==> Sizes(t, attachments[k].part)
    modifies fb, fb.buf, attachments
    ensures ok <==>
      && AllEncodable(t, Parts(attachments))
      && old(fb.Capacity()) >= |Body(Items(t, Parts(attachments)))|
    ensures ok ==> fb.Valid()
    ensures ok ==> fb.file == old(fb.Contents()) + Body(Items(t, Parts(attachments)))
    ensures ok ==>
      var recovered := Recovered(|old(fb.Contents())|, Items(t, Parts(attachments)));
      && |recovered| == |attachments|
      && forall k :: 0 <= k < |attachments| ==> attachments[k].offset == recovered[k].offset
  {
    hide Encodable, Packed, ItemBytes, Front, Sizes, Entries, DataStart, Recovered, Uintvar;
    ghost var parts, before := Parts(attachments), fb.Contents();
    if AllEncodable(t, parts) {
      OffsetsRecovered(t, parts, |before|);
    }
    if attachments != [] {
      ok := fb.PutUintvar(|attachments|);
      if !ok { return; }
      ok := WriteEntries(t, attachments, fb);
      if !ok { return; }
      assert forall k :: 0 <= k < |attachments| ==>
        attachments[k].offset == |before| + |Uintvar(|parts|)| + DataStart(t, parts, k);
    }
    assert AllEncodable(t, parts) ==> fb.Contents() == before + Body(Items(t, parts));
    ok := fb.Flush();
  }

  predicate OneEachIn(p: Part) {
    var m := Parse(p.contentType);
    m.Some? ==> OneEach(m.value)
  }

  /** Reading the body back gives headers, data and offset of every attachment, in order,
      exactly when no content type has two charsets or two names. */
  lemma ReaderRecovers(t: Tables, parts: seq<Part>, at: nat)
    requires AllEncodable(t, parts)
    ensures ReadBody(at, Body(Items(t, parts))) == Some(Recovered(at, Items(t, parts)))
      <==> forall k :: 0 <= k < |parts| ==> OneEachIn(parts[k])
  {
    hide Parse, Fits, HeadersLength, Headers, OneEach;
    var items := Items(t, parts);
    forall k | 0 <= k < |parts|
      ensures NeverShort(items[k]) && (Exact(items[k]) <==> OneEachIn(parts[k]))
    {
      HeadersLengthExact(t, Parse(parts[k].contentType).value, parts[k]);
    }
    BodyWalks(at, items);
    if forall k :: 0 <= k < |parts| ==> OneEachIn(parts[k]) {
      assert AllExact(items);
    } else {
      var k :| 0 <= k < |parts| && !OneEachIn(parts[k]);
      assert !Exact(items[k]);
    }
  }

  /** Whether the location of a part comes back. */
  predicate LocationReturns(p: Part) {
    p.location.Some? ==> Returns(p.location.value)
  }

  lemma PackedIs(t: Tables, p: Part)
    requires Encodable(t, p)
    ensures Parse(p.contentType).Some? && CharsetsKnown(t, Parse(p.contentType).value)
    ensures Packed(t, p).headers == Headers(t, Parse(p.contentType).value, p) && Packed(t, p).data == p.data
  {
    hide Headers, Parse, HeadersLength;
  }

  lemma RecoveredIs(t: Tables, parts: seq<Part>, at: nat, k: nat)
    requires AllEncodable(t, parts) && k < |parts|
    ensures var r := Recovered(at, Items(t, parts));
      && |r| == |parts| && r[k].data == parts[k].data && Encodable(t, parts[k])
      && r[k].headers == Headers(t, Parse(parts[k].contentType).value, parts[k])
  {
    hide Encodable, Packed, ItemBytes, Front, AllWritten, Entries, Headers, Parse, Uintvar;
    WrittenAt(at + |Uintvar(|parts|)|, Items(t, parts), k);
    assert Items(t, parts)[k] == Packed(t, parts[k]);
    PackedIs(t, parts[k]);
  }

  /** What arrives of a part: its type with the last charset and the last name, its content id
      and its location, unless the location is one that does not come back; or nothing, if the
      receiver has no name for the code of its type. */
  predicate ArrivesAs(n: Names, t: Tables, p: Part, headers: Bytes)
    requires Encodable(t, p)
  {
    var m := Parse(p.contentType).value;
    var name := Canonical(n, t, m.name);
    if name.None? then Received(n, headers).None?
    else
      Received(n, headers) == Some(Arrival(TypeRead(name.value, SentParameters(t, m)), Announced(p)))
      <==> LocationReturns(p)
  }

  lemma HeadersArrive(n: Names, t: Tables, p: Part)
    requires Encodable(t, p) && OneEachIn(p)
    ensures ArrivesAs(n, t, p, Headers(t, Parse(p.contentType).value, p))
  {
    hide Headers, Parse, OneEach, Received, Canonical, SentParameters, IsName, CharsetsKnown, Announced;
    var m := Parse(p.contentType).value;
    PackedIs(t, p);
    ParsedWellFormed(p.contentType);
    HeadersReceived(n, t, m, p);
  }

  /** From end to end: if no content type has two charsets or two names, a receiver of the
      body gets the data of every part, its content type, charset and name, and its content id
      and location exactly when the location is one that comes back. */
  lemma PartsReceived(n: Names, t: Tables, parts: seq<Part>, at: nat)
    requires AllEncodable(t, parts) && forall k :: 0 <= k < |parts| ==> OneEachIn(parts[k])
    ensures var r := ReadBody(at, Body(Items(t, parts)));
      && r.Some? && |r.value| == |parts|
      && forall k :: 0 <= k < |parts| ==>
        r.value[k].data == parts[k].data && ArrivesAs(n, t, parts[k], r.value[k].headers)
  {
    hide Headers, Parse, Fits, OneEach, ReadBody, Body, Recovered, Announced, Received, ArrivesAs;
    var items := Items(t, parts);
    ReaderRecovers(t, parts, at);
    var r := Recovered(at, items);
    assert |r| == |parts| by {
      hide Encodable, DataStart;
      OffsetsRecovered(t, parts, at);
    }
    forall k | 0 <= k < |parts|
      ensures r[k].data == parts[k].data && ArrivesAs(n, t, parts[k], r[k].headers)
    {
      RecoveredIs(t, parts, at, k);
      HeadersArrive(n, t, parts[k]);
    }
  }
}
