/**
  The multipart body (section 8.5 of WAP-230-WSP): entries with announced lengths, and a
  reader that goes by those lengths alone. What is inside the headers does not matter here.
*/
module MultipartBody {
  import opened Common
  import opened Wsp

  /** One part as it is written: `announced` is what is said to be the length of `headers`. */
  datatype Item = Item(announced: nat, headers: Bytes, data: Bytes)

  function Front(i: Item): Bytes {
    Uintvar(i.announced) + Uintvar(|i.data|) + i.headers
  }

  function ItemBytes(i: Item): Bytes {
    Front(i) + i.data
  }

  /** All of them one after the other. */
  function Joined(chunks: seq<Bytes>): Bytes {
    if chunks == [] then [] else Joined(chunks[..|chunks| - 1]) + chunks[|chunks| - 1]
  }

  lemma {:induction false} JoinedFirst(chunks: seq<Bytes>)
    requires chunks != []
    ensures Joined(chunks) == chunks[0] + Joined(chunks[1..])
  {
    var front := chunks[..|chunks| - 1];
    if front == [] {
      assert Joined(front) == [] && Joined(chunks[1..]) == [];
    } else {
      JoinedFirst(front);
      assert front[1..] == chunks[1..][..|chunks| - 2];
    }
  }

  function Chunks(items: seq<Item>): seq<Bytes> {
    seq(|items|, k requires 0 <= k < |items| => ItemBytes(items[k]))
  }

  function Entries(items: seq<Item>): Bytes {
    Joined(Chunks(items))
  }

  lemma EntriesFirst(items: seq<Item>)
    requires items != []
    ensures Entries(items) == ItemBytes(items[0]) + Entries(items[1..])
  {
    JoinedFirst(Chunks(items));
    assert Chunks(items)[1..] == Chunks(items[1..]);
  }

  lemma EntriesLast(items: seq<Item>, i: Item)
    ensures Entries(items + [i]) == Entries(items) + ItemBytes(i)
  {
    assert Chunks(items + [i])[..|items|] == Chunks(items);
  }

  /** A message without attachments has no body at all. */
  function Body(items: seq<Item>): Bytes {
    if items == [] then [] else Uintvar(|items|) + Entries(items)
  }

  // -------------------------------------------------------------------- reader

  datatype Entry = Entry(headers: Bytes, offset: nat, data: Bytes)

  datatype Walked = Lost | Walked(entry: Entry, rest: Bytes)

  /** Headers and data by their lengths. */
  function Cut(at: nat, h: nat, d: nat, s: Bytes): Walked {
    if h + d > |s| then Lost else Walked(Entry(s[..h], at + h, s[h..h + d]), s[h + d..])
  }

  /** One entry at position `at`. */
  function ReadEntry(at: nat, s: Bytes): (w: Walked)
    ensures w.Walked? ==> |w.rest| < |s|
  {
    var h := ReadUintvar(s);
    if h.Broken? then Lost
    else
      var d := ReadUintvar(h.rest);
      if d.Broken? then Lost else Cut(at + |s| - |d.rest|, h.value, d.value, d.rest)
  }

  function ReadEntries(n: nat, at: nat, s: Bytes): Option<seq<Entry>> {
    if n == 0 then (if s == [] then Some([]) else None)
    else
      match ReadEntry(at, s)
      case Lost => None
      case Walked(entry, rest) =>
        match ReadEntries(n - 1, at + |s| - |rest|, rest)
        case None => None
        case Some(others) => Some([entry] + others)
  }

  /** The body that starts at `at` in the file. */
  function ReadBody(at: nat, s: Bytes): Option<seq<Entry>> {
    if s == [] then Some([])
    else
      match ReadUintvar(s)
      case Broken => None
      case Read(n, rest) =>
        ReadEntries(n, at + |s| - |rest|, rest)
  }

  // ----------------------------------------------------- what the reader recovers

  /** The entry that was written at `at`. */
  function Written(at: nat, i: Item): Entry {
    Entry(i.headers, at + |Front(i)|, i.data)
  }

  function AllWritten(at: nat, items: seq<Item>): seq<Entry>
    decreases |items|
  {
    if items == [] then []
    else [Written(at, items[0])] + AllWritten(at + |ItemBytes(items[0])|, items[1..])
  }

  predicate Exact(i: Item) {
    i.announced == |i.headers|
  }

  predicate NeverShort(i: Item) {
    i.announced >= |i.headers|
  }

  lemma CutExact(at: nat, announced: nat, headers: Bytes, data: Bytes, rest: Bytes)
    requires announced >= |headers|
    ensures var r := Cut(at, announced, |data|, headers + (data + rest));
      if announced == |headers| then r == Walked(Entry(headers, at + |headers|, data), rest)
      else r.Walked? ==> |r.entry.headers| > |headers|
  {
    var s := headers + (data + rest);
    var h := |headers|;
    if announced == h {
      assert s[..h] == headers;
      assert s[h..h + |data|] == data;
      assert s[h + |data|..] == rest;
    }
  }

  lemma EntryReads(at: nat, i: Item, rest: Bytes)
    requires NeverShort(i)
    ensures Exact(i) ==> ReadEntry(at, ItemBytes(i) + rest) == Walked(Written(at, i), rest)
    ensures !Exact(i) ==>
      var r := ReadEntry(at, ItemBytes(i) + rest);
      r.Walked? ==> r.entry != Written(at, i)
  {
    var d := Uintvar(|i.data|);
    var payload := i.headers + (i.data + rest);
    assert ItemBytes(i) + rest == Uintvar(i.announced) + (d + payload);
    UintvarRoundTrip(i.announced, d + payload);
    UintvarRoundTrip(|i.data|, payload);
    CutExact(at + |Uintvar(i.announced)| + |d|, i.announced, i.headers, i.data, rest);
  }

  lemma FirstRight(n: nat, at: nat, s: Bytes, entry: Entry, rest: Bytes, others: seq<Entry>)
    requires n > 0 && ReadEntry(at, s) == Walked(entry, rest)
    ensures ReadEntries(n, at, s) == Some([entry] + others)
      <==> ReadEntries(n - 1, at + |s| - |rest|, rest) == Some(others)
  {
    var more := ReadEntries(n - 1, at + |s| - |rest|, rest);
    if more.Some? {
      assert ([entry] + more.value)[1..] == more.value;
      assert ([entry] + others)[1..] == others;
    }
  }

  lemma {:induction false} FirstWrong(n: nat, at: nat, s: Bytes, entry: Entry, others: seq<Entry>)
    requires n > 0 && (ReadEntry(at, s).Walked? ==> ReadEntry(at, s).entry != entry)
    ensures ReadEntries(n, at, s) != Some([entry] + others)
  {
    var r := ReadEntry(at, s);
    if r.Walked? {
      var more := ReadEntries(n - 1, at + |s| - |r.rest|, r.rest);
      if more.Some? {
        assert ([r.entry] + more.value)[0] != ([entry] + others)[0];
      }
    }
  }

  predicate AllExact(items: seq<Item>) {
    forall k :: 0 <= k < |items| ==> Exact(items[k])
  }

  predicate NoneShort(items: seq<Item>) {
    forall k :: 0 <= k < |items| ==> NeverShort(items[k])
  }

  predicate Recovers(at: nat, items: seq<Item>) {
    ReadEntries(|items|, at, Entries(items)) == Some(AllWritten(at, items))
  }

  lemma RecoversFirst(at: nat, items: seq<Item>)
    requires items != [] && NeverShort(items[0])
    ensures Recovers(at, items)
      <==> Exact(items[0]) && Recovers(at + |ItemBytes(items[0])|, items[1..])
  {
    hide ItemBytes, ReadEntry, Front, Joined, Chunks, Uintvar;
    var first, others := ItemBytes(items[0]), Entries(items[1..]);
    var entry, entries := Written(at, items[0]), AllWritten(at + |first|, items[1..]);
    EntriesFirst(items);
    EntryReads(at, items[0], others);
    assert AllWritten(at, items) == [entry] + entries;
    if Exact(items[0]) {
      FirstRight(|items|, at, first + others, entry, others, entries);
    } else {
      FirstWrong(|items|, at, first + others, entry, entries);
    }
  }

  lemma {:induction false} EntriesRead(at: nat, items: seq<Item>)
    requires NoneShort(items)
    ensures Recovers(at, items) <==> AllExact(items)
    decreases |items|
  {
    if items != [] {
      RecoversFirst(at, items);
      EntriesRead(at + |ItemBytes(items[0])|, items[1..]);
      assert AllExact(items) <==> Exact(items[0]) && AllExact(items[1..]) by {
        assert forall k :: 1 <= k < |items| ==> items[k] == items[1..][k - 1];
      }
    }
  }

  /** The entries of a body that starts at `at`. */
  function Recovered(at: nat, items: seq<Item>): seq<Entry> {
    AllWritten(at + |Uintvar(|items|)|, items)
  }

  lemma {:induction false} ReadBodyIs(at: nat, n: nat, entries: Bytes)
    ensures ReadBody(at, Uintvar(n) + entries) == ReadEntries(n, at + |Uintvar(n)|, entries)
  {
    hide ReadEntries;
    UintvarRoundTrip(n, entries);
    NoBody(at, n);
  }

  lemma NoBody(at: nat, n: nat)
    ensures Uintvar(n) != []
    ensures ReadBody(at, Body([])) == Some(Recovered(at, [])) && AllExact([])
  {
  }

  /** The reader recovers headers and data of every part, in order and where they are,
      exactly when every announced length is right. */
  lemma BodyWalks(at: nat, items: seq<Item>)
    requires NoneShort(items)
    ensures ReadBody(at, Body(items)) == Some(Recovered(at, items)) <==> AllExact(items)
  {
    hide Entries, Uintvar, ReadEntries, AllWritten, ReadBody, NoneShort, AllExact;
    if items == [] {
      NoBody(at, 0);
    } else {
      ReadBodyIs(at, |items|, Entries(items));
      EntriesRead(at + |Uintvar(|items|)|, items);
    }
  }

  /** Entry `k`, without recursion. */
  lemma {:induction false} WrittenAt(at: nat, items: seq<Item>, k: nat)
    requires k < |items|
    ensures |AllWritten(at, items)| == |items|
    ensures AllWritten(at, items)[k] == Written(at + |Entries(items[..k])|, items[k])
    decreases |items|
  {
    var next := at + |ItemBytes(items[0])|;
    if |items| > 1 {
      WrittenAt(next, items[1..], if k == 0 then 0 else k - 1);
    }
    if k > 0 {
      assert items[..k][1..] == items[1..][..k - 1];
      EntriesFirst(items[..k]);
    }
  }
}
