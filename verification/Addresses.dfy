/**
  Lists of addresses, from the user through mms_task_encode.c and mms_codec.c into a message,
  and out of a message through mms_codec.c and mms_util.c.
*/
module Addresses {
  import opened Common
  import opened MediaType

  const COMMA: Char := 0x2c

  /** "/TYPE=" and "/TYPE=PLMN" */
  const SUFFIX: CString := [0x2f, 0x54, 0x59, 0x50, 0x45, 0x3d]
  const PHONE: CString := SUFFIX + [0x50, 0x4c, 0x4d, 0x4e]

  /** g_ascii_isspace */
  predicate IsBlank(c: Char) {
    c == 9 || c == 10 || c == 12 || c == 13 || c == 32
  }

  // ------------------------------------------------------------------ trimming

  function TrimLeft(s: CString): (r: CString)
    ensures |r| <= |s| && r == s[|s| - |r|..]
    ensures r == [] || !IsBlank(r[0])
  {
    if s != [] && IsBlank(s[0]) then TrimLeft(s[1..]) else s
  }

  function TrimRight(s: CString): (r: CString)
    ensures r <= s
    ensures r == [] || !IsBlank(r[|r| - 1])
  {
    if s != [] && IsBlank(s[|s| - 1]) then TrimRight(s[..|s| - 1]) else s
  }

  /** g_strstrip */
  function Trim(s: CString): (r: CString)
    ensures r == [] || (!IsBlank(r[0]) && !IsBlank(r[|r| - 1]))
  {
    TrimRight(TrimLeft(s))
  }

  // ------------------------------------------------------------------- the type

  predicate TypeAt(s: CString, i: nat) {
    i + |SUFFIX| <= |s| && s[i..i + |SUFFIX|] == SUFFIX
  }

  /** Where the last suffix starts that starts before `n`. */
  function LastType(s: CString, n: nat): (r: Option<nat>)
    ensures r.Some? ==> r.value < n && TypeAt(s, r.value)
    ensures forall i :: (if r.Some? then r.value + 1 else 0) <= i < n ==> !TypeAt(s, i)
  {
    if n == 0 then None else if TypeAt(s, n - 1) then Some(n - 1) else LastType(s, n - 1)
  }

  predicate HasType(s: CString) {
    LastType(s, |s|).Some?
  }

  function CutType(s: CString): CString {
    var last := LastType(s, |s|);
    if last.Some? then s[..last.value] else s
  }

  /** mms_strip_address_type */
  function Stripped(s: CString): CString {
    CutType(Trim(s))
  }

  /** mms_address_normalize */
  function Normalized(s: CString): (r: Option<CString>)
  {
    var t := Trim(s);
    if t == [] then None else Some(Typed(t))
  }

  function Typed(t: CString): CString {
    if HasType(t) then t else t + PHONE
  }

  lemma {:induction false} LastIs(s: CString, n: nat, i: nat)
    requires i < n && TypeAt(s, i)
    requires forall j :: i < j < n ==> !TypeAt(s, j)
    ensures LastType(s, n) == Some(i)
  {
  }

  lemma {:induction false} PhoneAppended(t: CString)
    ensures LastType(t + PHONE, |t + PHONE|) == Some(|t|)
  {
    var s := t + PHONE;
    assert s[|t|..|t| + 6] == SUFFIX;
    forall j | |t| < j < |s|
      ensures !TypeAt(s, j)
    {
      if j + 6 <= |s| {
        assert s[j..j + 6][0] == s[j] == PHONE[j - |t|];
        assert PHONE[j - |t|] != 0x2f;
      }
    }
    LastIs(s, |s|, |t|);
  }

  lemma TrimAgain(s: CString)
    requires Tight(s)
    ensures Trim(s) == s
  {
  }

  predicate Tight(s: CString) {
    s != [] && !IsBlank(s[0]) && !IsBlank(s[|s| - 1])
  }

  lemma PhoneTight(t: CString)
    requires Tight(t)
    ensures Tight(t + PHONE) && (t + PHONE)[0] == t[0]
  {
    var r := t + PHONE;
    assert r[|r| - 1] == PHONE[9];
  }

  /** A type is there in the end, and cutting it off gives the same as if it had not been
      added. */
  lemma TypedOk(t: CString)
    requires Tight(t)
    ensures Tight(Typed(t)) && Typed(t)[0] == t[0]
    ensures HasType(Typed(t)) && CutType(Typed(t)) == CutType(t)
  {
    if !HasType(t) {
      hide LastType;
      PhoneAppended(t);
      PhoneTight(t);
      assert (t + PHONE)[..|t|] == t;
    }
  }

  /** What is normalized already is left alone. */
  lemma NormalizeTwice(s: CString)
    ensures Normalized(s).Some? ==> Normalized(Normalized(s).value) == Normalized(s)
  {
    var t := Trim(s);
    if t != [] {
      hide LastType, TrimLeft, TrimRight;
      TypedOk(t);
      TrimAgain(Typed(t));
    }
  }

  /** The address that comes back is the trimmed one without its type. */
  lemma NormalizedBack(s: CString)
    requires Normalized(s).Some?
    ensures Stripped(Normalized(s).value) == Stripped(s)
  {
    hide LastType, TrimLeft, TrimRight;
    var t := Trim(s);
    TypedOk(t);
    TrimAgain(Typed(t));
  }

  /** "/TYPE=" is not in it. */
  predicate Untyped(s: CString) {
    forall i :: 0 <= i < |s| ==> !TypeAt(s, i)
  }

  lemma TypeWithin(t: CString, x: CString, j: nat)
    requires Untyped(x) && |t| < j < |t + SUFFIX + x|
    ensures !TypeAt(t + SUFFIX + x, j)
  {
    var s := t + SUFFIX + x;
    assert j < |t| + 6 ==> s[j] == SUFFIX[j - |t|] != 0x2f;
    if TypeAt(s, j) {
      assert s[j..j + 6][0] == s[j];
      if j >= |t| + 6 {
        var i := j - |t| - 6;
        assert s[j..j + 6] == x[i..i + 6];
        assert TypeAt(x, i);
      }
    }
  }

  lemma LastTypeIs(t: CString, x: CString)
    requires Untyped(x)
    ensures var s := t + SUFFIX + x;
      LastType(s, |s|) == Some(|t|) && s[..|t|] == t
  {
    hide LastType, TypeAt;
    var s := t + SUFFIX + x;
    forall j | |t| < j < |s|
      ensures !TypeAt(s, j)
    {
      TypeWithin(t, x, j);
    }
    assert TypeAt(s, |t|) by {
      SuffixThere(t, x);
    }
    LastIs(s, |s|, |t|);
  }

  lemma SuffixThere(t: CString, x: CString)
    ensures TypeAt(t + SUFFIX + x, |t|)
  {
    assert (t + SUFFIX + x)[|t|..|t| + 6] == SUFFIX;
  }

  lemma NoType(x: CString)
    requires Untyped(x)
    ensures CutType(x) == x
  {
    hide LastType, TypeAt;
  }

  /** The last type is cut off, and an address without a type is only trimmed. */
  lemma StrippedIs(t: CString, x: CString)
    requires Untyped(x)
    ensures Tight(t + SUFFIX + x) ==> Stripped(t + SUFFIX + x) == t
    ensures Tight(x) ==> Stripped(x) == x
  {
    hide TrimLeft, TrimRight, Trim, LastType, Untyped;
    if Tight(t + SUFFIX + x) {
      TrimAgain(t + SUFFIX + x);
      LastTypeIs(t, x);
    }
    if Tight(x) {
      TrimAgain(x);
      NoType(x);
    }
  }

  /** Tab, line feed, form feed, carriage return and space. */
  const BLANKS: CString := [9, 10, 12, 13, 32]

  predicate AllBlank(s: CString) {
    forall c :: c in s ==> c in BLANKS
  }

  lemma BlanksAre(c: Char)
    ensures c in BLANKS <==> IsBlank(c)
  {
    assert BLANKS[0] == 9;
  }

  lemma {:induction false} LeftGone(g: CString, s: CString)
    requires AllBlank(g) && (s == [] || !IsBlank(s[0]))
    ensures TrimLeft(g + s) == s
  {
    hide IsBlank, BLANKS;
    if g == [] {
      assert g + s == s;
    } else {
      assert (g + s)[1..] == g[1..] + s && g[0] in g;
      BlanksAre(g[0]);
      LeftGone(g[1..], s);
    }
  }

  lemma {:induction false} RightGone(s: CString, h: CString)
    requires AllBlank(h) && (s == [] || !IsBlank(s[|s| - 1]))
    ensures TrimRight(s + h) == s
  {
    hide IsBlank, BLANKS;
    if h == [] {
      assert s + h == s;
    } else {
      var all := s + h;
      assert all[..|all| - 1] == s + h[..|h| - 1] && all[|all| - 1] == h[|h| - 1] && h[|h| - 1] in h;
      BlanksAre(h[|h| - 1]);
      RightGone(s, h[..|h| - 1]);
    }
  }

  /** Blanks around it go, and nothing else. */
  lemma TrimmedIs(g: CString, s: CString, h: CString)
    requires AllBlank(g) && AllBlank(h) && Tight(s)
    ensures Trim(g + s + h) == s
  {
    hide TrimLeft, TrimRight;
    assert (s + h)[0] == s[0];
    assert g + s + h == g + (s + h);
    LeftGone(g, s + h);
    RightGone(s, h);
  }

  // ------------------------------------------------------------------- the list

  predicate NoComma(s: CString) {
    COMMA !in s
  }

  predicate NoCommas(list: seq<CString>) {
    forall k :: 0 <= k < |list| ==> NoComma(list[k])
  }

  /** The pieces between commas, always at least one. */
  function Pieces(s: CString): (r: seq<CString>)
    ensures r != []
  {
    if s == [] then [[]]
    else
      var r := Pieces(s[1..]);
      if s[0] == COMMA then [[]] + r else [[s[0]] + r[0]] + r[1..]
  }

  /** g_strsplit, which makes nothing of an empty string. */
  function Split(s: CString): seq<CString> {
    if s == [] then [] else Pieces(s)
  }

  lemma {:induction false} PiecesOfBoth(a: CString, b: CString)
    ensures Pieces(a + [COMMA] + b) == Pieces(a) + Pieces(b)
  {
    var s := a + [COMMA] + b;
    if a == [] {
      assert s[1..] == b;
    } else {
      assert s[1..] == a[1..] + [COMMA] + b;
      PiecesOfBoth(a[1..], b);
    }
  }

  lemma {:induction false} OnePiece(a: CString)
    requires NoComma(a)
    ensures Pieces(a) == [a]
  {
    if a == [] {
      assert a == [];
    } else {
      OnePiece(a[1..]);
      assert a[0] in a && [a[0]] + a[1..] == a;
      assert Pieces(a) == [a] + [a[1..]][1..];
    }
  }

  lemma {:induction false} PiecesHaveNoComma(s: CString)
    ensures NoCommas(Pieces(s))
  {
    if s != [] {
      PiecesHaveNoComma(s[1..]);
      var r := Pieces(s[1..]);
      assert NoComma(r[0]) && NoComma([]);
      if s[0] != COMMA {
        assert NoComma([s[0]] + r[0]);
      }
    }
  }

  lemma {:induction false} JoinThenPieces(list: seq<CString>)
    requires list != [] && NoCommas(list)
    ensures Pieces(JoinedBy(list, COMMA)) == list
  {
    var front, last := list[..|list| - 1], list[|list| - 1];
    OnePiece(last);
    if front != [] {
      JoinThenPieces(front);
      PiecesOfBoth(JoinedBy(front, COMMA), last);
    }
  }

  function NormalizedAll(pieces: seq<CString>): seq<CString> {
    if pieces == [] then []
    else
      var last := Normalized(pieces[|pieces| - 1]);
      NormalizedAll(pieces[..|pieces| - 1]) + if last.Some? then [last.value] else []
  }

  function JoinedOrEmpty(list: seq<CString>): CString {
    if list == [] then [] else JoinedBy(list, COMMA)
  }

  /** mms_task_encode_prepare_address_list */
  function Prepared(s: CString): Option<CString> {
    if s == [] then None
    else if COMMA in s then Some(JoinedOrEmpty(NormalizedAll(Pieces(s))))
    else Normalized(s)
  }

  /** The pieces that are sent, each in a header of its own: encode_text_array_element. */
  function Elements(list: Option<CString>): seq<CString> {
    if list.None? then [] else Split(list.value)
  }

  predicate Clean(s: CString) {
    NoComma(s) && Tight(s) && HasType(s)
  }

  predicate AllClean(list: seq<CString>) {
    forall k :: 0 <= k < |list| ==> Clean(list[k])
  }

  lemma TrimmedFrom(s: CString)
    ensures forall c :: c in Trim(s) ==> c in s
  {
    var l := TrimLeft(s);
    assert forall c :: c in Trim(s) ==> c in l;
  }

  lemma NormalizedClean(s: CString)
    requires NoComma(s)
    ensures Normalized(s).Some? ==> Clean(Normalized(s).value)
  {
    hide LastType, TrimLeft, TrimRight;
    TrimmedFrom(s);
    assert NoComma(Trim(s)) && NoComma(PHONE);
    if Trim(s) != [] {
      TypedOk(Trim(s));
    }
  }

  lemma {:induction false} NormalizedAllClean(pieces: seq<CString>)
    requires NoCommas(pieces)
    ensures AllClean(NormalizedAll(pieces))
  {
    if pieces != [] {
      hide Normalized, Clean, NoComma;
      NormalizedAllClean(pieces[..|pieces| - 1]);
      NormalizedClean(pieces[|pieces| - 1]);
    }
  }

  lemma {:induction false} JoinedNotEmpty(list: seq<CString>)
    requires list != [] && forall k :: 0 <= k < |list| ==> list[k] != []
    ensures JoinedBy(list, COMMA) != []
  {
  }

  /** What is sent is every piece that is not blank, normalized. */
  lemma {:induction false} ElementsSent(s: CString)
    ensures Elements(Prepared(s)) == NormalizedAll(Pieces(s))
  {
    hide Normalized;
    PiecesHaveNoComma(s);
    NormalizedAllClean(Pieces(s));
    var sent := NormalizedAll(Pieces(s));
    if s == [] {
      OneNormalized(s);
    } else if COMMA in s {
      if sent != [] {
        JoinedNotEmpty(sent);
        JoinThenPieces(sent);
      }
    } else {
      OnePiece(s);
      NormalizedClean(s);
      if Normalized(s).Some? {
        OnePiece(Normalized(s).value);
      }
      OneNormalized(s);
    }
  }

  lemma OneNormalized(s: CString)
    ensures NormalizedAll(Pieces([])) == []
    ensures NormalizedAll([s]) == if Normalized(s).Some? then [Normalized(s).value] else []
  {
    assert Pieces([])[..0] == [] && Normalized([]) == None;
    hide Normalized;
    assert [s][..0] == [];
  }
}
