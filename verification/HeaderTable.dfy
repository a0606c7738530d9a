/**
  mms_parse_headers of mms_codec.c: headers are matched against a table that says which of them
  are wanted, which are mandatory, which may be repeated and which come first.
*/
module HeaderTable {
  import opened Common

  type Text = seq<Byte>

  const HEADER_BCC: Byte := 0x01
  const HEADER_CC: Byte := 0x02
  const HEADER_TO: Byte := 0x17
  const MAX_HEADER: Byte := 0x1c
  const COMMA: Byte := 0x2c

  /** The numbers that have a handler. */
  type Header = h: int | 1 <= h < 0x1c witness 1

  /** A line of the table. `wanted` is false where the caller passed no place for the value. */
  datatype Wanted = Wanted(header: Header, mandatory: bool, multi: bool, preset: bool, wanted: bool)

  /** A header of the message, by number if it is a well-known one. */
  datatype Item = Item(wellKnown: bool, name: Byte, value: Text)

  /** What a handler makes of a value: it fails, accepts and ignores it, or delivers text. */
  datatype Decoded = Bad | Ignored | Good(text: Text)

  datatype Decoder = Decoder(decode: (Header, Text) -> Decoded)

  function Decode(d: Decoder, h: Header, value: Text): Decoded {
    d.decode(h, value)
  }

  predicate IsAddress(h: Header) {
    h == HEADER_BCC || h == HEADER_CC || h == HEADER_TO
  }

  /** The addresses are collected, anything else is replaced. */
  function Collected(h: Header, before: Option<Text>, text: Text): Text {
    if IsAddress(h) && before.Some? then before.value + [COMMA] + text else text
  }

  // ------------------------------------------------------------------ the table

  predicate DistinctHeaders(table: seq<Wanted>) {
    forall i, j :: 0 <= i < j < |table| ==> table[i].header != table[j].header
  }

  /** The line for a header; a header that is not in the table is not wanted. */
  function Line(table: seq<Wanted>, h: Header): Wanted {
    if table == [] then Wanted(h, false, false, false, false)
    else if table[0].header == h then table[0]
    else Line(table[1..], h)
  }

  lemma {:induction false} LineAt(table: seq<Wanted>, k: nat)
    requires k < |table| && DistinctHeaders(table)
    ensures Line(table, table[k].header) == table[k]
  {
    if k > 0 {
      assert DistinctHeaders(table[1..]);
      LineAt(table[1..], k - 1);
    }
  }

  // ---------------------------------------------------------------- the headers

  predicate Is(item: Item, h: Header) {
    item.wellKnown && item.name == h
  }

  /** Positions count from one; zero stands for none. */
  function FirstAt(items: seq<Item>, n: nat, h: Header): (p: nat)
    requires n <= |items|
    ensures p <= n
  {
    if n == 0 then 0
    else
      var p := FirstAt(items, n - 1, h);
      if p == 0 && Is(items[n - 1], h) then n else p
  }

  function LastAt(items: seq<Item>, n: nat, h: Header): (p: nat)
    requires n <= |items|
    ensures p <= n && (p == 0 <==> FirstAt(items, n, h) == 0)
  {
    if n == 0 then 0 else if Is(items[n - 1], h) then n else LastAt(items, n - 1, h)
  }

  predicate Present(items: seq<Item>, n: nat, h: Header)
    requires n <= |items|
  {
    FirstAt(items, n, h) != 0
  }

  /** Whether item `j` is given to its handler. */
  predicate Called(table: seq<Wanted>, items: seq<Item>, j: nat, h: Header)
    requires j < |items|
  {
    && Is(items[j], h) && Line(table, h).wanted
    && (Line(table, h).multi || !Present(items, j, h))
  }

  predicate Fails(d: Decoder, table: seq<Wanted>, items: seq<Item>, j: nat)
    requires j < |items|
  {
    1 <= items[j].name < MAX_HEADER && Called(table, items, j, items[j].name)
      && Decode(d, items[j].name, items[j].value).Bad?
  }

  /** The first failure ends the parsing; all headers before it count. */
  function Stop(d: Decoder, table: seq<Wanted>, items: seq<Item>, from: nat): (n: nat)
    requires from <= |items|
    ensures from <= n <= |items|
    ensures forall j :: from <= j < n ==> !Fails(d, table, items, j)
    ensures n < |items| ==> Fails(d, table, items, n)
    decreases |items| - from
  {
    if from == |items| || Fails(d, table, items, from) then from else Stop(d, table, items, from + 1)
  }

  /** The position that is recorded for a header. */
  function Recorded(table: seq<Wanted>, items: seq<Item>, n: nat, h: Header): nat
    requires n <= |items|
  {
    if Line(table, h).wanted && !Line(table, h).multi then FirstAt(items, n, h) else LastAt(items, n, h)
  }

  function Content(d: Decoder, table: seq<Wanted>, items: seq<Item>, n: nat, h: Header): Option<Text>
    requires n <= |items|
  {
    if n == 0 then None
    else
      var before := Content(d, table, items, n - 1, h);
      if !Called(table, items, n - 1, h) then before
      else
        match Decode(d, h, items[n - 1].value)
        case Good(text) => Some(Collected(h, before, text))
        case _ => before
  }

  /** How many of the first `k` headers of the table are present. */
  function PresentBefore(table: seq<Wanted>, items: seq<Item>, n: nat, k: nat): nat
    requires n <= |items| && k <= |table|
  {
    if k == 0 then 0
    else PresentBefore(table, items, n, k - 1) + if Present(items, n, table[k - 1].header) then 1 else 0
  }

  predicate Complete(table: seq<Wanted>, items: seq<Item>, n: nat)
    requires n <= |items|
  {
    forall k :: 0 <= k < |table| && table[k].mandatory ==> Present(items, n, table[k].header)
  }

  /** Those of the first `k` headers that have a preset position and are present are where they
      should be. */
  predicate InPlaceUpTo(table: seq<Wanted>, items: seq<Item>, n: nat, k: nat)
    requires n <= |items| && k <= |table|
  {
    forall i :: 0 <= i < k && table[i].preset && Present(items, n, table[i].header) ==>
      Recorded(table, items, n, table[i].header) == 1 + PresentBefore(table, items, n, i)
  }

  predicate InPlace(table: seq<Wanted>, items: seq<Item>, n: nat)
    requires n <= |items|
  {
    InPlaceUpTo(table, items, n, |table|)
  }

  predicate Accepts(d: Decoder, table: seq<Wanted>, items: seq<Item>) {
    var n := Stop(d, table, items, 0);
    Complete(table, items, n) && InPlace(table, items, n)
  }

  // -------------------------------------------------------------- the positions

  /** The headers with a preset position are listed first, as the code assumes. */
  predicate PresetFirst(table: seq<Wanted>) {
    forall i, j :: 0 <= i < j < |table| && table[j].preset ==> table[i].preset
  }

  /** Where the present ones of the first `k` headers with a preset position are. */
  function PresetPositions(table: seq<Wanted>, items: seq<Item>, n: nat, k: nat): seq<nat>
    requires n <= |items| && k <= |table|
  {
    if k == 0 then []
    else
      PresetPositions(table, items, n, k - 1)
        + if table[k - 1].preset && Present(items, n, table[k - 1].header)
          then [Recorded(table, items, n, table[k - 1].header)] else []
  }

  function UpTo(m: nat): seq<nat> {
    seq(m, i requires 0 <= i < m => i + 1)
  }

  lemma UpToNext(s: seq<nat>, x: nat)
    ensures s + [x] == UpTo(|s| + 1) <==> s == UpTo(|s|) && x == |s| + 1
  {
    assert (s + [x])[..|s|] == s && (s + [x])[|s|] == x;
    assert UpTo(|s| + 1) == UpTo(|s|) + [|s| + 1];
    if s + [x] == UpTo(|s|) + [|s| + 1] {
      assert s == (UpTo(|s|) + [|s| + 1])[..|s|] == UpTo(|s|);
    }
  }

  lemma InPlaceNext(table: seq<Wanted>, items: seq<Item>, n: nat, k: nat)
    requires n <= |items| && k < |table|
    ensures InPlaceUpTo(table, items, n, k + 1) <==>
      && InPlaceUpTo(table, items, n, k)
      && (table[k].preset && Present(items, n, table[k].header) ==>
        Recorded(table, items, n, table[k].header) == 1 + PresentBefore(table, items, n, k))
  {
    hide Recorded, Present, PresentBefore;
  }

  lemma {:induction false} PositionsUpTo(table: seq<Wanted>, items: seq<Item>, n: nat, k: nat)
    requires n <= |items| && k <= |table| && PresetFirst(table)
    ensures InPlaceUpTo(table, items, n, k)
      <==> PresetPositions(table, items, n, k) == UpTo(|PresetPositions(table, items, n, k)|)
    ensures k > 0 && table[k - 1].preset ==> |PresetPositions(table, items, n, k)| == PresentBefore(table, items, n, k)
  {
    if k > 0 {
      hide Recorded, Present, InPlaceUpTo, UpTo;
      PositionsUpTo(table, items, n, k - 1);
      InPlaceNext(table, items, n, k - 1);
      var before := PresetPositions(table, items, n, k - 1);
      var h := table[k - 1].header;
      if table[k - 1].preset && Present(items, n, h) {
        assert |before| == PresentBefore(table, items, n, k - 1);
        UpToNext(before, Recorded(table, items, n, h));
      } else {
        assert before + [] == before;
      }
    }
  }

  /** Acceptance: nothing mandatory is missing before the first failure, and the headers with
      a preset position that are there are at 1, 2, 3 and so on, in the order of the table. */
  lemma {:induction false} AcceptsExactly(d: Decoder, table: seq<Wanted>, items: seq<Item>)
    requires PresetFirst(table)
    ensures var n := Stop(d, table, items, 0);
      var positions := PresetPositions(table, items, n, |table|);
      Accepts(d, table, items) <==> Complete(table, items, n) && positions == UpTo(|positions|)
  {
    PositionsUpTo(table, items, Stop(d, table, items, 0), |table|);
  }

  // ---------------------------------------------------------------- the contents

  /** A header that may not be repeated keeps what its first occurrence gave. */
  lemma {:induction false} FirstKept(d: Decoder, table: seq<Wanted>, items: seq<Item>, n: nat, h: Header)
    requires n <= |items| && Line(table, h).wanted && !Line(table, h).multi
    ensures Content(d, table, items, n, h) ==
      if !Present(items, n, h) then None
      else
        var first := Decode(d, h, items[FirstAt(items, n, h) - 1].value);
        if first.Good? then Some(first.text) else None
  {
    if n > 0 {
      FirstKept(d, table, items, n - 1, h);
    }
  }

  /** All texts of a header in order. */
  function Texts(d: Decoder, items: seq<Item>, n: nat, h: Header): seq<Text>
    requires n <= |items|
  {
    if n == 0 then []
    else
      Texts(d, items, n - 1, h)
        + if Is(items[n - 1], h) && Decode(d, h, items[n - 1].value).Good?
          then [Decode(d, h, items[n - 1].value).text] else []
  }

  /** An address header that may be repeated holds all its occurrences, joined by commas. */
  lemma {:induction false} AllJoined(d: Decoder, table: seq<Wanted>, items: seq<Item>, n: nat, h: Header)
    requires n <= |items| && Line(table, h).wanted && Line(table, h).multi
    requires h == HEADER_TO || h == HEADER_CC || h == HEADER_BCC
    ensures var texts := Texts(d, items, n, h);
      Content(d, table, items, n, h) == if texts == [] then None else Some(JoinedBy(texts, COMMA))
  {
    if n > 0 {
      assert IsAddress(h);
      hide JoinedBy, Line, Present, FirstAt, Decode, IsAddress;
      AllJoined(d, table, items, n - 1, h);
      var before := Texts(d, items, n - 1, h);
      var decoded := Decode(d, h, items[n - 1].value);
      if Is(items[n - 1], h) && decoded.Good? {
        JoinedByNext(before, COMMA, decoded.text);
      } else {
        assert before + [] == before;
      }
    }
  }

  /** A header that is not wanted leaves nothing. */
  lemma {:induction false} UnwantedLeft(d: Decoder, table: seq<Wanted>, items: seq<Item>, n: nat, h: Header)
    requires n <= |items| && !Line(table, h).wanted
    ensures Content(d, table, items, n, h) == None
  {
    if n > 0 {
      UnwantedLeft(d, table, items, n - 1, h);
    }
  }

  /** Any other header that may be repeated holds its last occurrence. */
  lemma {:induction false} LastKept(d: Decoder, table: seq<Wanted>, items: seq<Item>, n: nat, h: Header)
    requires n <= |items| && Line(table, h).wanted && Line(table, h).multi
    requires h != HEADER_TO && h != HEADER_CC && h != HEADER_BCC
    ensures var texts := Texts(d, items, n, h);
      Content(d, table, items, n, h) == if texts == [] then None else Some(texts[|texts| - 1])
  {
    if n > 0 {
      LastKept(d, table, items, n - 1, h);
    }
  }

  // ------------------------------------------------------- the same without positions

  predicate NotAmong(items: seq<Item>, from: nat, n: nat, h: Header)
    requires n <= |items|
  {
    forall i :: from <= i < n ==> !Is(items[i], h)
  }

  lemma {:induction false} FirstAtIs(items: seq<Item>, n: nat, h: Header, j: nat)
    requires n <= |items|
    ensures FirstAt(items, n, h) == 0 <==> NotAmong(items, 0, n, h)
    ensures FirstAt(items, n, h) == j + 1 <==> j < n && Is(items[j], h) && NotAmong(items, 0, j, h)
  {
    if n > 0 {
      FirstAtIs(items, n - 1, h, j);
      FirstAtIs(items, n - 1, h, n - 1);
    }
  }

  lemma {:induction false} LastAtIs(items: seq<Item>, n: nat, h: Header, j: nat)
    requires n <= |items|
    ensures LastAt(items, n, h) == j + 1 <==> j < n && Is(items[j], h) && NotAmong(items, j + 1, n, h)
  {
    if n > 0 {
      LastAtIs(items, n - 1, h, j);
    }
  }

  /** A wanted header whose handler fails, and that is not just a repetition. */
  predicate Refused(d: Decoder, table: seq<Wanted>, items: seq<Item>, j: nat)
    requires j < |items|
  {
    var item := items[j];
    && item.wellKnown && 1 <= item.name < MAX_HEADER
    && Line(table, item.name).wanted
    && (Line(table, item.name).multi || NotAmong(items, 0, j, item.name))
    && Decode(d, item.name, item.value).Bad?
  }

  /** Parsing stops at the first header that is refused. */
  lemma {:induction false} StopsAtFirst(d: Decoder, table: seq<Wanted>, items: seq<Item>)
    ensures var n := Stop(d, table, items, 0);
      && n <= |items| && (n < |items| ==> Refused(d, table, items, n))
      && forall j :: 0 <= j < n ==> !Refused(d, table, items, j)
  {
    forall j | 0 <= j < |items|
      ensures Refused(d, table, items, j) <==> Fails(d, table, items, j)
    {
      if 1 <= items[j].name < MAX_HEADER {
        FirstAtIs(items, j, items[j].name, 0);
      }
    }
  }

  /** Those of the first `k` headers of the table that have a preset position and are present. */
  function PresentPresets(table: seq<Wanted>, items: seq<Item>, n: nat, k: nat): seq<Header>
    requires n <= |items| && k <= |table|
  {
    if k == 0 then []
    else
      PresentPresets(table, items, n, k - 1)
        + if table[k - 1].preset && Present(items, n, table[k - 1].header) then [table[k - 1].header] else []
  }

  lemma {:induction false} PositionsOf(table: seq<Wanted>, items: seq<Item>, n: nat, k: nat)
    requires n <= |items| && k <= |table| && DistinctHeaders(table)
    ensures var hs, positions := PresentPresets(table, items, n, k), PresetPositions(table, items, n, k);
      && |hs| == |positions|
      && (forall j :: 0 <= j < |hs| ==> positions[j] == Recorded(table, items, n, hs[j]))
      && (forall i, j :: 0 <= i < j < |hs| ==> hs[i] != hs[j])
      && (forall j :: 0 <= j < |hs| ==> exists i :: 0 <= i < k && table[i].header == hs[j])
  {
    if k > 0 {
      hide Recorded, Present;
      PositionsOf(table, items, n, k - 1);
      var hs := PresentPresets(table, items, n, k - 1);
      forall j | 0 <= j < |hs|
        ensures hs[j] != table[k - 1].header
      {
        var i :| 0 <= i < k - 1 && table[i].header == hs[j];
      }
    }
  }

  /** A header that keeps its first position may be repeated later on, any other may not. */
  predicate OnlyHere(table: seq<Wanted>, items: seq<Item>, n: nat, j: nat, h: Header)
    requires n <= |items|
  {
    (Line(table, h).wanted && !Line(table, h).multi) || NotAmong(items, j + 1, n, h)
  }

  /** The message starts with those headers, in that order. */
  predicate StartsWith(table: seq<Wanted>, items: seq<Item>, n: nat, hs: seq<Header>)
    requires n <= |items|
  {
    |hs| <= n && forall j :: 0 <= j < |hs| ==> Is(items[j], hs[j]) && OnlyHere(table, items, n, j, hs[j])
  }

  lemma RecordedHere(table: seq<Wanted>, items: seq<Item>, n: nat, h: Header, j: nat)
    requires n <= |items|
    ensures Recorded(table, items, n, h) == j + 1 ==>
      j < n && Is(items[j], h) && OnlyHere(table, items, n, j, h)
    ensures j < n && Is(items[j], h) && OnlyHere(table, items, n, j, h) && NotAmong(items, 0, j, h) ==>
      Recorded(table, items, n, h) == j + 1
  {
    hide Line, FirstAt, LastAt;
    FirstAtIs(items, n, h, j);
    LastAtIs(items, n, h, j);
  }

  /** A message is accepted exactly when every mandatory header comes before the first that is
      refused, and it starts with those headers of a preset position that it has, in the order of
      the table. */
  lemma {:induction false} AcceptsInFront(d: Decoder, table: seq<Wanted>, items: seq<Item>)
    requires PresetFirst(table) && DistinctHeaders(table)
    ensures var n := Stop(d, table, items, 0);
      Accepts(d, table, items) <==>
        Complete(table, items, n) && StartsWith(table, items, n, PresentPresets(table, items, n, |table|))
  {
    hide Recorded, Complete, OnlyHere, Stop;
    var n := Stop(d, table, items, 0);
    var hs, positions := PresentPresets(table, items, n, |table|), PresetPositions(table, items, n, |table|);
    AcceptsExactly(d, table, items);
    PositionsOf(table, items, n, |table|);
    if positions == UpTo(|positions|) {
      forall j | 0 <= j < |hs|
        ensures j < n && Is(items[j], hs[j]) && OnlyHere(table, items, n, j, hs[j])
      {
        assert positions[j] == UpTo(|positions|)[j];
        RecordedHere(table, items, n, hs[j], j);
      }
      if |hs| > 0 {
        var last := |hs| - 1;
        assert positions[last] == UpTo(|positions|)[last];
        RecordedHere(table, items, n, hs[last], last);
      }
    }
    if StartsWith(table, items, n, hs) {
      forall j | 0 <= j < |hs|
        ensures positions[j] == j + 1
      {
        forall i | 0 <= i < j
          ensures !Is(items[i], hs[j])
        {
          assert Is(items[i], hs[i]) && hs[i] != hs[j];
        }
        RecordedHere(table, items, n, hs[j], j);
      }
      assert positions == UpTo(|positions|);
    }
  }
}
