/** mms_parse_headers in its own form: a table of entries that is filled in place. */
module HeaderParser {
  import opened Common
  import opened HeaderTable

  datatype Cell = Cell(
    mandatory: bool, multi: bool, preset: bool, marked: bool, wanted: bool, pos: nat, data: Option<Text>)

  const EMPTY := Cell(false, false, false, false, false, 0, None)

  /** What the entry of a header says after `n` headers of the message. */
  function CellAfter(d: Decoder, table: seq<Wanted>, items: seq<Item>, n: nat, h: Header): Cell
    requires n <= |items|
  {
    var line := Line(table, h);
    Cell(line.mandatory, line.multi, line.preset, Present(items, n, h), line.wanted,
         Recorded(table, items, n, h), Content(d, table, items, n, h))
  }

  ghost predicate Filled(cells: seq<Cell>, d: Decoder, table: seq<Wanted>, items: seq<Item>, n: nat)
    requires n <= |items|
  {
    |cells| == 29 && cells[0] == EMPTY && cells[28] == EMPTY
    && forall h: Header {:trigger cells[h]} :: cells[h] == CellAfter(d, table, items, n, h)
  }

  /** Filling in the table. */
  method ReadTable(d: Decoder, table: seq<Wanted>, items: seq<Item>) returns (entries: array<Cell>)
    requires DistinctHeaders(table)
    ensures fresh(entries) && Filled(entries[..], d, table, items, 0)
  {
    entries := new Cell[29](_ => EMPTY);
    for k := 0 to |table|
      invariant entries[0] == EMPTY && entries[28] == EMPTY
      invariant forall h: Header {:trigger entries[h]} ::
        entries[h] == CellAfter(d, table[..k], items, 0, h)
    {
      var w := table[k];
      LineNext(table, k);
      entries[w.header] := Cell(w.mandatory, w.multi, w.preset, false, w.wanted, 0, None);
    }
    assert table[..|table|] == table;
  }

  lemma {:induction false} LineNext(table: seq<Wanted>, k: nat)
    requires k < |table| && DistinctHeaders(table)
    ensures forall h: Header {:trigger Line(table[..k + 1], h)} ::
      Line(table[..k + 1], h) == if h == table[k].header then table[k] else Line(table[..k], h)
    decreases k
  {
    if k == 0 {
      assert table[..1] == [table[0]];
    } else {
      assert DistinctHeaders(table[1..]);
      LineNext(table[1..], k - 1);
      assert table[1..][..k] == table[..k + 1][1..];
      assert table[1..][..k - 1] == table[..k][1..];
    }
  }

  lemma OtherHeader(d: Decoder, table: seq<Wanted>, items: seq<Item>, i: nat, h: Header)
    requires i < |items| && !Is(items[i], h)
    ensures CellAfter(d, table, items, i + 1, h) == CellAfter(d, table, items, i, h)
  {
    hide Line, Decode, Collected;
  }

  /** Only the entry of that header changes. */
  lemma OneCell(cells: seq<Cell>, d: Decoder, table: seq<Wanted>, items: seq<Item>, i: nat, h: Header)
    requires i < |items| && Filled(cells, d, table, items, i) && Is(items[i], h)
    ensures Filled(cells[h := CellAfter(d, table, items, i + 1, h)], d, table, items, i + 1)
  {
    hide CellAfter;
    forall other: Header | other != h
      ensures cells[other] == CellAfter(d, table, items, i + 1, other)
    {
      OtherHeader(d, table, items, i, other);
    }
  }

  lemma NoCell(cells: seq<Cell>, d: Decoder, table: seq<Wanted>, items: seq<Item>, i: nat)
    requires i < |items| && Filled(cells, d, table, items, i)
    requires !items[i].wellKnown || items[i].name < 1 || items[i].name >= MAX_HEADER
    ensures Filled(cells, d, table, items, i + 1)
  {
    hide CellAfter;
    forall h: Header
      ensures cells[h] == CellAfter(d, table, items, i + 1, h)
    {
      OtherHeader(d, table, items, i, h);
    }
  }

  /** What becomes of an entry, unless the handler fails. */
  lemma CellNext(d: Decoder, table: seq<Wanted>, items: seq<Item>, i: nat, h: Header)
    requires i < |items| && Is(items[i], h)
    ensures var cell, next := CellAfter(d, table, items, i, h), CellAfter(d, table, items, i + 1, h);
      var marked := cell.(pos := i + 1, marked := true);
      if !cell.wanted then next == marked && !Fails(d, table, items, i)
      else if cell.marked && !cell.multi then next == cell && !Fails(d, table, items, i)
      else
        match Decode(d, h, items[i].value)
        case Bad => Fails(d, table, items, i)
        case Good(text) =>
          next == marked.(data := Some(Collected(h, cell.data, text))) && !Fails(d, table, items, i)
        case Ignored => next == marked && !Fails(d, table, items, i)
  {
    hide Line, Decode, Collected;
  }

  /** One header of the message; false when its handler fails. */
  method ReadItem(d: Decoder, ghost table: seq<Wanted>, items: seq<Item>, i: nat, entries: array<Cell>)
    returns (ok: bool)
    requires i < |items| && Filled(entries[..], d, table, items, i)
    modifies entries
    ensures ok <==> !Fails(d, table, items, i)
    ensures ok ==> Filled(entries[..], d, table, items, i + 1)
    ensures !ok ==> entries[..] == old(entries[..])
  {
    hide Collected, Decode, Filled, CellAfter, Fails;
    var item := items[i];
    assert |entries[..]| == 29 by {
      TableSize(entries[..], d, table, items, i);
    }
    if !item.wellKnown || item.name < 1 || item.name >= MAX_HEADER {
      NoCell(entries[..], d, table, items, i);
      NeverFails(d, table, items, i);
      return true;
    }
    var h: Header := item.name;
    var cell := entries[h];
    CellOf(entries[..], d, table, items, i, h);
    CellNext(d, table, items, i, h);
    OneCell(entries[..], d, table, items, i, h);
    if !cell.wanted {
      entries[h] := cell.(pos := i + 1, marked := true);
    } else if !cell.marked || cell.multi {
      match Decode(d, h, item.value) {
        case Bad => return false;
        case Good(text) =>
          entries[h] := cell.(pos := i + 1, marked := true, data := Some(Collected(h, cell.data, text)));
        case Ignored =>
          entries[h] := cell.(pos := i + 1, marked := true);
      }
    }
    assert entries[..] == old(entries[..])[h := CellAfter(d, table, items, i + 1, h)];
    return true;
  }

  lemma TableSize(cells: seq<Cell>, d: Decoder, table: seq<Wanted>, items: seq<Item>, i: nat)
    requires i <= |items| && Filled(cells, d, table, items, i)
    ensures |cells| == 29
  {
  }

  lemma CellOf(cells: seq<Cell>, d: Decoder, table: seq<Wanted>, items: seq<Item>, i: nat, h: Header)
    requires i <= |items| && Filled(cells, d, table, items, i)
    ensures |cells| == 29 && cells[h] == CellAfter(d, table, items, i, h)
  {
  }

  lemma NeverFails(d: Decoder, table: seq<Wanted>, items: seq<Item>, i: nat)
    requires i < |items| && (!items[i].wellKnown || items[i].name < 1 || items[i].name >= MAX_HEADER)
    ensures !Fails(d, table, items, i)
  {
  }

  /** The position that a header of the table should have. */
  method ExpectedPosition(ghost d: Decoder, table: seq<Wanted>, ghost items: seq<Item>, ghost n: nat,
                          entries: array<Cell>, h: Header)
    returns (pos: nat)
    requires n <= |items| && Filled(entries[..], d, table, items, n)
    ensures forall k :: 0 <= k < |table| && DistinctHeaders(table) && table[k].header == h ==>
      pos == 1 + PresentBefore(table, items, n, k)
  {
    pos := 1;
    var j := 0;
    while j < |table| && table[j].header != h
      invariant j <= |table| && forall i :: 0 <= i < j ==> table[i].header != h
      invariant pos == 1 + PresentBefore(table, items, n, j)
    {
      var cell := entries[table[j].header];
      assert cell == entries[..][table[j].header];
      if cell.marked {
        pos := pos + 1;
      }
      j := j + 1;
    }
  }

  /** What is said of the lines of the table holds of the headers by number. */
  lemma {:induction false} LineIn(table: seq<Wanted>, h: Header) returns (k: nat)
    requires Line(table, h).mandatory || Line(table, h).preset
    ensures k < |table| && table[k] == Line(table, h)
    ensures table[k].header == h
  {
    if table[0].header == h {
      k := 0;
    } else {
      var j := LineIn(table[1..], h);
      k := j + 1;
    }
  }

  predicate HeaderPresent(table: seq<Wanted>, items: seq<Item>, n: nat, h: Header)
    requires n <= |items|
  {
    Line(table, h).mandatory ==> Present(items, n, h)
  }

  predicate HeaderInPlace(table: seq<Wanted>, items: seq<Item>, n: nat, h: Header)
    requires n <= |items|
  {
    Line(table, h).preset && Present(items, n, h) ==>
      forall k :: 0 <= k < |table| && table[k].header == h ==>
        Recorded(table, items, n, h) == 1 + PresentBefore(table, items, n, k)
  }

  lemma ByNumber(table: seq<Wanted>, items: seq<Item>, n: nat)
    requires n <= |items| && DistinctHeaders(table)
    ensures Complete(table, items, n) <==> forall h: Header :: HeaderPresent(table, items, n, h)
    ensures InPlace(table, items, n) <==> forall h: Header :: HeaderInPlace(table, items, n, h)
  {
    forall k | 0 <= k < |table|
      ensures Line(table, table[k].header) == table[k]
    {
      LineAt(table, k);
    }
    forall h: Header | Line(table, h).mandatory || Line(table, h).preset
      ensures exists k :: 0 <= k < |table| && table[k] == Line(table, h) && table[k].header == h
    {
      var k := LineIn(table, h);
    }
    if forall h: Header :: HeaderPresent(table, items, n, h) {
      forall k | 0 <= k < |table| && table[k].mandatory
        ensures Present(items, n, table[k].header)
      {
        assert HeaderPresent(table, items, n, table[k].header);
      }
    }
    if forall h: Header :: HeaderInPlace(table, items, n, h) {
      forall k | 0 <= k < |table| && table[k].preset && Present(items, n, table[k].header)
        ensures Recorded(table, items, n, table[k].header) == 1 + PresentBefore(table, items, n, k)
      {
        assert HeaderInPlace(table, items, n, table[k].header);
      }
    }
  }

  /** Mandatory headers, and then the positions. */
  method CheckHeaders(ghost d: Decoder, table: seq<Wanted>, ghost items: seq<Item>, ghost n: nat, entries: array<Cell>)
    returns (ok: bool)
    requires n <= |items| && DistinctHeaders(table) && Filled(entries[..], d, table, items, n)
    ensures ok <==> Complete(table, items, n) && InPlace(table, items, n)
  {
    ByNumber(table, items, n);
    for i := 0 to 29
      invariant forall h: Header :: h < i ==> HeaderPresent(table, items, n, h)
    {
      var cell := entries[i];
      assert cell == entries[..][i];
      if cell.mandatory && !cell.marked {
        assert !HeaderPresent(table, items, n, i);
        return false;
      }
    }
    for i := 0 to 29
      invariant forall h: Header :: h < i ==> HeaderInPlace(table, items, n, h)
    {
      var cell := entries[i];
      assert cell == entries[..][i];
      if cell.preset && cell.marked {
        var expected := ExpectedPosition(d, table, items, n, entries, i);
        if cell.pos != expected {
          var k := LineIn(table, i);
          assert !HeaderInPlace(table, items, n, i);
          return false;
        }
      }
    }
    return true;
  }

  method ParseHeaders(d: Decoder, table: seq<Wanted>, items: seq<Item>)
    returns (ok: bool, data: seq<Option<Text>>)
    requires DistinctHeaders(table)
    ensures ok <==> Accepts(d, table, items)
    ensures |data| == 29 && forall h: Header {:trigger data[h]} ::
      data[h] == Content(d, table, items, Stop(d, table, items, 0), h)
  {
    var entries := ReadTable(d, table, items);
    var i := 0;
    while i < |items|
      invariant i <= |items| && Stop(d, table, items, 0) == Stop(d, table, items, i)
      invariant Filled(entries[..], d, table, items, i)
    {
      var more := ReadItem(d, table, items, i, entries);
      if !more {
        break;
      }
      i := i + 1;
    }
    assert i == Stop(d, table, items, 0);
    data := seq(29, h requires 0 <= h < 29 reads entries => entries[h].data);
    ok := CheckHeaders(d, table, items, i, entries);
  }
}
