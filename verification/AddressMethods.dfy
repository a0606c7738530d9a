/** The functions for address lists in their own form, with loops over strings and lists. */
module AddressMethods {
  import opened Common
  import opened MediaType
  import opened Addresses
  import A = AddressHeaders
  import P = PartHeader
  import FB = FileBuffer

  lemma {:induction false} TrimRightTo(s: CString, len: nat)
    requires len <= |s| && (forall i :: len <= i < |s| ==> IsBlank(s[i]))
    requires len == 0 || !IsBlank(s[len - 1])
    ensures TrimRight(s) == s[..len]
    decreases |s|
  {
    if len < |s| {
      TrimRightTo(s[..|s| - 1], len);
      assert s[..|s| - 1][..len] == s[..len];
    }
  }

  method SkipBlanks(s: CString) returns (rest: CString)
    ensures rest == TrimLeft(s)
  {
    var start := 0;
    while start < |s| && IsBlank(s[start])
      invariant start <= |s| && TrimLeft(s) == TrimLeft(s[start..])
    {
      assert s[start..][1..] == s[start + 1..];
      start := start + 1;
    }
    rest := s[start..];
  }

  method LengthWithoutBlanks(s: CString) returns (len: nat)
    ensures len <= |s| && TrimRight(s) == s[..len]
  {
    len := |s|;
    while len > 0 && IsBlank(s[len - 1])
      invariant len <= |s|
      invariant forall i :: len <= i < |s| ==> IsBlank(s[i])
    {
      len := len - 1;
    }
    TrimRightTo(s, len);
  }

  /** mms_address_normalize */
  method Normalize(address: Option<CString>) returns (out: Option<CString>)
    ensures out == if address.None? then None else Normalized(address.value)
  {
    hide TrimLeft, TrimRight, LastType;
    if address.None? {
      return None;
    }
    var rest := SkipBlanks(address.value);
    var len := LengthWithoutBlanks(rest);
    if len == 0 {
      return None;
    }
    var t := rest[..len];
    if HasType(t) {
      out := Some(t);
    } else {
      out := Some(t + PHONE);
    }
  }

  /** One more address behind the comma-separated ones. */
  function Appended(buf: CString, address: Option<CString>): CString {
    if address.None? then buf else (if buf == [] then [] else buf + [COMMA]) + address.value
  }

  lemma AppendedJoined(pieces: seq<CString>, i: nat)
    requires i < |pieces| && NoCommas(pieces)
    ensures JoinedOrEmpty(NormalizedAll(pieces[..i + 1]))
      == Appended(JoinedOrEmpty(NormalizedAll(pieces[..i])), Normalized(pieces[i]))
  {
    hide Normalized, Clean, Pieces;
    var sent := NormalizedAll(pieces[..i]);
    assert pieces[..i + 1][..i] == pieces[..i];
    NormalizedAllClean(pieces[..i]);
    if sent != [] {
      CleanNotEmpty(sent);
      JoinedNotEmpty(sent);
    }
    if Normalized(pieces[i]).Some? {
      var address := Normalized(pieces[i]).value;
      JoinedByNext(sent, COMMA, address);
      assert [] + address == address;
    } else {
      assert sent + [] == sent;
    }
  }

  lemma CleanNotEmpty(list: seq<CString>)
    requires AllClean(list)
    ensures forall k :: 0 <= k < |list| ==> list[k] != []
  {
    hide LastType, NoComma;
  }

  /** mms_task_encode_prepare_address_list */
  method PrepareAddressList(s: Option<CString>) returns (list: Option<CString>)
    ensures list == if s.None? then None else Prepared(s.value)
  {
    hide Normalized, Pieces, JoinedOrEmpty, NormalizedAll, Appended, NoCommas;
    if s.None? || s.value == [] {
      return None;
    }
    if COMMA !in s.value {
      list := Normalize(s);
      return;
    }
    var parts := Pieces(s.value);
    var buf: CString := [];
    PiecesHaveNoComma(s.value);
    NonePrepared(parts);
    for i := 0 to |parts|
      invariant buf == JoinedOrEmpty(NormalizedAll(parts[..i]))
    {
      var address := Normalize(Some(parts[i]));
      AppendedJoined(parts, i);
      buf := AppendAddress(buf, address);
    }
    assert parts[..|parts|] == parts;
    list := Some(buf);
  }

  method AppendAddress(buf: CString, address: Option<CString>) returns (out: CString)
    ensures out == Appended(buf, address)
  {
    out := buf;
    if address.Some? {
      if |out| > 0 {
        out := out + [COMMA];
      }
      out := out + address.value;
    }
  }

  lemma NonePrepared(parts: seq<CString>)
    ensures JoinedOrEmpty(NormalizedAll(parts[..0])) == []
  {
  }

  /** mms_split_address_list; the strings of the list are changed in place. */
  method SplitAddressList(list: Option<CString>) returns (strings: seq<CString>)
    ensures strings == A.SplitAddressList(list)
  {
    hide Stripped, Pieces;
    if list.None? || list.value == [] {
      return [];
    }
    strings := Pieces(list.value);
    ghost var pieces := strings;
    for i := 0 to |strings|
      invariant |strings| == |pieces|
      invariant forall j :: 0 <= j < i ==> strings[j] == Stripped(pieces[j])
      invariant forall j :: i <= j < |pieces| ==> strings[j] == pieces[j]
    {
      strings := strings[i := Stripped(strings[i])];
    }
  }

  /** encode_text */
  method EncodeText(fb: FB.Buffer, header: Byte, text: CString) returns (ok: bool)
    requires fb.Valid()
    modifies fb, fb.buf
    ensures ok ==> fb.Valid() && fb.Contents() == old(fb.Contents()) + P.Field(header, P.TextBytes(text))
    ensures old(fb.Capacity()) >= 0 && |P.TextBytes(text)| < FB.FB_SIZE ==> ok
    ensures ok ==> |P.TextBytes(text)| < FB.FB_SIZE
    ensures ok ==> fb.Capacity() == old(fb.Capacity()) - |P.Field(header, P.TextBytes(text))|
  {
    hide P.TextBytes, FB.Token;
    ok := fb.PutField(header, P.TextBytes(text));
  }

  lemma {:induction false} SentBoth(token: Byte, a: seq<CString>, b: seq<CString>)
    ensures A.Sent(token, a + b) == A.Sent(token, a) + A.Sent(token, b)
  {
    hide P.TextBytes, P.Field;
    if a == [] {
      assert a + b == b;
    } else {
      SentBoth(token, a[1..], b);
      assert (a + b)[1..] == a[1..] + b;
    }
  }

  lemma {:induction false} SentOne(token: Byte, text: CString)
    ensures A.Sent(token, [text]) == P.Field(token, P.TextBytes(text))
  {
    hide P.TextBytes, P.Field;
    assert A.Sent(token, [text][1..]) == [];
  }

  /** encode_text_array_element: the whole list is emitted, or some element does not fit. */
  method EncodeTextArrayElement(fb: FB.Buffer, header: Byte, text: Option<CString>) returns (ok: bool)
    requires fb.Valid()
    modifies fb, fb.buf
    ensures ok ==> fb.Valid() && fb.Contents() == old(fb.Contents()) + A.Sent(header, Elements(text))
    ensures ok ==> fb.Capacity() == old(fb.Capacity()) - |A.Sent(header, Elements(text))|
    ensures old(fb.Capacity()) >= |A.Sent(header, Elements(text))| ==>
      (ok <==> forall k :: 0 <= k < |Elements(text)| ==> |P.TextBytes(Elements(text)[k])| < FB.FB_SIZE)
  {
    hide P.TextBytes, P.Field, A.Sent;
    var elements := Elements(text);
    ghost var before := fb.Contents();
    NothingSent(header, elements);
    for i := 0 to |elements|
      invariant fb.Valid() && fb.Contents() == before + A.Sent(header, elements[..i])
      invariant fb.Capacity() == old(fb.Capacity()) - |A.Sent(header, elements[..i])|
      invariant forall k :: 0 <= k < i ==> |P.TextBytes(elements[k])| < FB.FB_SIZE
    {
      ghost var sent := elements[..i];
      assert elements[..i + 1] == sent + [elements[i]];
      assert elements == elements[..i + 1] + elements[i + 1..];
      SentBoth(header, sent, [elements[i]]);
      SentOne(header, elements[i]);
      SentBoth(header, elements[..i + 1], elements[i + 1..]);
      ok := EncodeText(fb, header, elements[i]);
      if !ok {
        return;
      }
    }
    assert elements[..|elements|] == elements;
    ok := true;
  }

  lemma {:induction false} NothingSent(header: Byte, elements: seq<CString>)
    ensures A.Sent(header, elements[..0]) == []
  {
  }
}
