/**
  File names and content ids of the parts of a received message, as mms_task_decode.c hands
  them out: cleaned of characters that cannot be in a name, and made different from all others
  with underscores in front.
*/
module FileNames {
  import opened Common

  predicate Dropped(c: char) {
    c == '<' || c == '>' || c == '[' || c == ']'
  }

  predicate Replaced(c: char) {
    c == '/' || c == '\\'
  }

  function Sanitized(s: string): string {
    if s == [] then []
    else
      (if Dropped(s[0]) then "" else if Replaced(s[0]) then "_" else [s[0]]) + Sanitized(s[1..])
  }

  /** No slashes, backslashes, brackets of either kind. */
  predicate Proper(s: string) {
    forall i :: 0 <= i < |s| ==> !Dropped(s[i]) && !Replaced(s[i])
  }

  lemma {:induction false} SanitizedProper(s: string)
    ensures Proper(Sanitized(s)) && forall c :: c in Sanitized(s) ==> c !in "/\\<>[]"
  {
    if s != [] {
      SanitizedProper(s[1..]);
    }
  }

  lemma {:induction false} SanitizedBoth(a: string, b: string)
    ensures Sanitized(a + b) == Sanitized(a) + Sanitized(b)
  {
    if a == [] {
      assert a + b == b;
    } else {
      assert (a + b)[1..] == a[1..] + b;
      SanitizedBoth(a[1..], b);
    }
  }

  /** A bracket goes, a slash of either kind becomes an underscore, and any other character
      stays where it is. */
  lemma {:induction false} SanitizedWithin(a: string, c: char, b: string)
    ensures Sanitized(a + [c] + b) == Sanitized(a) +
      (if c in "<>[]" then "" else if c in "/\\" then "_" else [c]) + Sanitized(b)
  {
    hide Sanitized;
    SanitizedBoth(a + [c], b);
    SanitizedBoth(a, [c]);
    SanitizedOne(c);
  }

  lemma SanitizedOne(c: char)
    ensures Sanitized([c]) == if c in "<>[]" then "" else if c in "/\\" then "_" else [c]
  {
    assert [c][1..] == "";
  }

  lemma {:induction false} ProperKept(s: string)
    ensures Proper(s) <==> Sanitized(s) == s
  {
    if s != [] {
      ProperKept(s[1..]);
      SanitizedShrinks(s[1..]);
      assert s == [s[0]] + s[1..];
      assert Proper(s) <==> !Dropped(s[0]) && !Replaced(s[0]) && Proper(s[1..]);
    }
  }

  lemma {:induction false} SanitizedShrinks(s: string)
    ensures |Sanitized(s)| <= |s|
  {
    if s != [] {
      SanitizedShrinks(s[1..]);
    }
  }

  // ---------------------------------------------------------------- underscores

  function Longest(names: seq<string>): nat {
    if names == [] then 0 else Max(|names[0]|, Longest(names[1..]))
  }

  function Max(a: nat, b: nat): nat {
    if a < b then b else a
  }

  lemma {:induction false} LongestIs(names: seq<string>, name: string)
    requires name in names
    ensures |name| <= Longest(names)
  {
    if name != names[0] {
      LongestIs(names[1..], name);
    }
  }

  /** The name, with underscores in front as long as it is taken. */
  function Unique(names: seq<string>, name: string): string
    decreases Longest(names) + 1 - |name|
  {
    if name in names then
      LongestIs(names, name);
      Unique(names, "_" + name)
    else name
  }

  function Underscores(k: nat): string {
    seq(k, i => '_')
  }

  predicate Taken(names: seq<string>, name: string, k: nat) {
    Underscores(k) + name in names
  }

  /** The least number of underscores that makes a difference. */
  predicate LeastFree(names: seq<string>, name: string, k: nat) {
    !Taken(names, name, k) && forall j :: 0 <= j < k ==> Taken(names, name, j)
  }

  lemma {:induction false} UniqueIsLeast(names: seq<string>, name: string) returns (k: nat)
    ensures Unique(names, name) == Underscores(k) + name && LeastFree(names, name, k)
    decreases Longest(names) + 1 - |name|
  {
    assert Underscores(0) + name == name;
    if name in names {
      LongestIs(names, name);
      var j := UniqueIsLeast(names, "_" + name);
      k := j + 1;
      forall i | 1 <= i <= k
        ensures Underscores(i - 1) + ("_" + name) == Underscores(i) + name
      {
        OneMoreUnderscore(i - 1, name);
      }
      assert !Taken(names, "_" + name, j);
      forall i | 0 <= i < k
        ensures Taken(names, name, i)
      {
        if i > 0 {
          assert Taken(names, "_" + name, i - 1);
        }
      }
    } else {
      k := 0;
    }
  }

  lemma OneMoreUnderscore(i: nat, name: string)
    ensures Underscores(i) + ("_" + name) == Underscores(i + 1) + name
  {
  }

  /** There are never more underscores than names. */
  lemma {:induction false} FewUnderscores(names: seq<string>, name: string, k: nat)
    requires forall j :: 0 <= j < k ==> Taken(names, name, j)
    ensures k <= |names|
    decreases k
  {
    if k > 0 {
      assert Taken(names, name, k - 1);
      var last := Underscores(k - 1) + name;
      var i :| 0 <= i < |names| && names[i] == last;
      var others := names[..i] + names[i + 1..];
      forall j | 0 <= j < k - 1
        ensures Taken(others, name, j)
      {
        assert Taken(names, name, j);
        var one := Underscores(j) + name;
        assert |one| != |last|;
        var m :| 0 <= m < |names| && names[m] == one;
        assert others[if m < i then m else m - 1] == one;
      }
      FewUnderscores(others, name, k - 1);
    }
  }

  // ---------------------------------------------------------------- all the parts

  function FileName(names: seq<string>, proposed: string): string {
    Unique(names, Sanitized(proposed))
  }

  predicate Distinct(names: seq<string>) {
    forall i, j :: 0 <= i < j < |names| ==> names[i] != names[j]
  }

  predicate AllProper(names: seq<string>) {
    forall i :: 0 <= i < |names| ==> Proper(names[i])
  }

  lemma FileNameOk(names: seq<string>, proposed: string)
    requires Distinct(names) && AllProper(names)
    ensures FileName(names, proposed) !in names
    ensures Distinct(names + [FileName(names, proposed)]) && AllProper(names + [FileName(names, proposed)])
  {
    var k := UniqueIsLeast(names, Sanitized(proposed));
    SanitizedProper(proposed);
  }

  lemma {:induction false} UniqueOk(names: seq<string>, name: string)
    requires Distinct(names)
    ensures Unique(names, name) !in names && Distinct(names + [Unique(names, name)])
  {
    var k := UniqueIsLeast(names, name);
  }

  /** What is known of a part when its name is chosen: the headers, whether its file could be
      written, and whether it has a transfer encoding to undo. */
  datatype Attachment = Attachment(
    location: Option<string>, id: Option<string>, written: bool, encoded: bool)

  datatype Part = Part(file: string, orig: Option<string>, contentId: string)

  datatype Names = Names(files: seq<string>, ids: seq<string>, parts: seq<Part>)

  function Decimal(n: nat): string {
    if n < 10 then [DIGITS[n]] else Decimal(n / 10) + [DIGITS[n % 10]]
  }

  const DIGITS := "0123456789"

  /** The location, or else the content id, or else a number. */
  function Proposed(a: Attachment, i: nat): string {
    var name := if a.location.Some? then a.location else a.id;
    if name.Some? && name.value != "" then name.value else "part_" + Decimal(i)
  }

  function AddPart(n: Names, a: Attachment, i: nat): Names {
    var file := FileName(n.files, Proposed(a, i));
    var files := n.files + [file];
    if !a.written then n.(files := files)
    else
      var id := Unique(n.ids, if a.id.Some? then a.id.value else "<" + file + ">");
      var orig := FileName(files, file + ".orig");
      if a.encoded then
        Names(files + [orig], n.ids + [id], n.parts + [Part(file, Some(orig), id)])
      else Names(files, n.ids + [id], n.parts + [Part(file, None, id)])
  }

  function AddParts(attachments: seq<Attachment>): Names {
    if attachments == [] then Names([], [], [])
    else
      AddPart(AddParts(attachments[..|attachments| - 1]), attachments[|attachments| - 1], |attachments| - 1)
  }

  predicate NamesOk(n: Names) {
    && Distinct(n.files) && AllProper(n.files) && Distinct(n.ids)
    && |n.ids| == |n.parts|
    && forall k :: 0 <= k < |n.parts| ==>
      && n.parts[k].contentId == n.ids[k]
      && n.parts[k].file in n.files
      && (n.parts[k].orig.Some? ==> n.parts[k].orig.value in n.files && n.parts[k].orig.value != n.parts[k].file)
  }

  predicate FilesDiffer(parts: seq<Part>) {
    forall j, k :: 0 <= j < k < |parts| ==>
      && parts[j].file != parts[k].file && parts[j].contentId != parts[k].contentId
      && (parts[j].orig.Some? ==> parts[j].orig.value != parts[k].file)
      && (parts[k].orig.Some? ==> parts[j].file != parts[k].orig.value)
      && (parts[j].orig.Some? && parts[k].orig.Some? ==> parts[j].orig != parts[k].orig)
  }

  lemma AddPartOk(n: Names, a: Attachment, i: nat)
    requires NamesOk(n) && FilesDiffer(n.parts)
    ensures NamesOk(AddPart(n, a, i)) && FilesDiffer(AddPart(n, a, i).parts)
  {
    hide Unique, Sanitized, Proper;
    var file := FileName(n.files, Proposed(a, i));
    var files := n.files + [file];
    FileNameOk(n.files, Proposed(a, i));
    FileNameOk(files, file + ".orig");
    UniqueOk(n.ids, if a.id.Some? then a.id.value else "<" + file + ">");
    assert files[|n.files|] == file;
    var orig := FileName(files, file + ".orig");
  }

  /** The files of all parts of a message, the originals included, have different and proper
      names, and the parts have different content ids. */
  lemma {:induction false} AllPartsDiffer(attachments: seq<Attachment>)
    ensures NamesOk(AddParts(attachments)) && FilesDiffer(AddParts(attachments).parts)
  {
    if attachments != [] {
      hide NamesOk, FilesDiffer, AddPart;
      AllPartsDiffer(attachments[..|attachments| - 1]);
      AddPartOk(AddParts(attachments[..|attachments| - 1]), attachments[|attachments| - 1], |attachments| - 1);
    }
  }

  // ------------------------------------------------------- which names parts can count on

  /** A part is called by its location; without one, by its content id; and if what there is of
      them is empty, by its number. */
  lemma {:induction false} ProposedIs(a: Attachment, i: nat)
    ensures a.location.Some? && a.location.value != "" ==> Proposed(a, i) == a.location.value
    ensures a.location.None? && a.id.Some? && a.id.value != "" ==> Proposed(a, i) == a.id.value
    ensures a.location == Some("") || (a.location.None? && (a.id.None? || a.id == Some("")))
      ==> Proposed(a, i) == "part_" + Decimal(i)
  {
  }

  /** The number that a decimal stands for. */
  function Number(s: string): nat {
    if s == [] then 0 else Number(s[..|s| - 1]) * 10 + Digit(s[|s| - 1])
  }

  function Digit(c: char): nat {
    if '0' <= c <= '9' then c as nat - '0' as nat else 0
  }

  lemma {:induction false} DecimalBack(n: nat)
    ensures Number(Decimal(n)) == n
  {
    assert forall k :: 0 <= k < 10 ==> Digit(DIGITS[k]) == k;
    if n < 10 {
      assert Decimal(n)[..0] == [];
    } else {
      DecimalBack(n / 10);
      assert Decimal(n)[..|Decimal(n)| - 1] == Decimal(n / 10);
    }
  }

  /** Numbered parts have different names. */
  lemma {:induction false} NumbersDiffer(i: nat, j: nat)
    ensures "part_" + Decimal(i) == "part_" + Decimal(j) <==> i == j
  {
    if "part_" + Decimal(i) == "part_" + Decimal(j) {
      assert ("part_" + Decimal(i))[5..] == Decimal(i);
      assert ("part_" + Decimal(j))[5..] == Decimal(j);
      DecimalBack(i);
      DecimalBack(j);
    }
  }

  /** The location says what the part should be called, and that can be a file name. */
  predicate ProperlyNamed(a: Attachment) {
    a.location.Some? && a.location.value != "" && Proper(a.location.value) && !a.encoded
  }

  function Locations(attachments: seq<Attachment>): seq<string> {
    seq(|attachments|, i requires 0 <= i < |attachments| =>
      if attachments[i].location.Some? then attachments[i].location.value else "")
  }

  lemma DistinctFront(names: seq<string>, last: string)
    requires Distinct(names + [last])
    ensures Distinct(names) && last !in names
  {
    var all := names + [last];
    assert all[|names|] == last;
    forall i | 0 <= i < |names|
      ensures names[i] != last
    {
      assert all[i] != all[|names|];
    }
    assert forall i :: 0 <= i < |names| ==> all[i] == names[i];
  }

  /** If the locations are proper names and all different, every part gets its own. */
  lemma {:induction false} LocationsKept(attachments: seq<Attachment>)
    requires forall i :: 0 <= i < |attachments| ==> ProperlyNamed(attachments[i])
    requires Distinct(Locations(attachments))
    ensures AddParts(attachments).files == Locations(attachments)
  {
    if attachments == [] {
      assert Locations(attachments) == [];
    } else {
      hide Sanitized, Proper;
      var front, last := attachments[..|attachments| - 1], attachments[|attachments| - 1];
      assert Locations(attachments) == Locations(front) + [last.location.value];
      assert forall i :: 0 <= i < |front| ==> front[i] == attachments[i];
      DistinctFront(Locations(front), last.location.value);
      LocationsKept(front);
      assert ProperlyNamed(attachments[|attachments| - 1]);
      ProperKept(last.location.value);
    }
  }

  function ContentIds(attachments: seq<Attachment>): seq<string> {
    seq(|attachments|, i requires 0 <= i < |attachments| =>
      if attachments[i].id.Some? then attachments[i].id.value else "")
  }

  /** If all parts are written and have different content ids, they keep them. */
  lemma {:induction false} ContentIdsKept(attachments: seq<Attachment>)
    requires forall i :: 0 <= i < |attachments| ==> attachments[i].written && attachments[i].id.Some?
    requires Distinct(ContentIds(attachments))
    ensures AddParts(attachments).ids == ContentIds(attachments)
  {
    if attachments == [] {
      assert ContentIds(attachments) == [];
    } else {
      hide Sanitized, Proposed;
      var front, last := attachments[..|attachments| - 1], attachments[|attachments| - 1];
      assert ContentIds(attachments) == ContentIds(front) + [last.id.value];
      assert forall i :: 0 <= i < |front| ==> front[i] == attachments[i];
      DistinctFront(ContentIds(front), last.id.value);
      ContentIdsKept(front);
    }
  }

  /** Parts are lost only where their files could not be written, and those with a transfer
      encoding keep their original beside the decoded one. */
  lemma {:induction false} PartsAre(attachments: seq<Attachment>)
    ensures |AddParts(attachments).parts| == WrittenOf(attachments, |attachments|)
    ensures forall i :: 0 <= i < |attachments| && attachments[i].written ==>
      var k := WrittenOf(attachments, i);
      && k < |AddParts(attachments).parts|
      && (AddParts(attachments).parts[k].orig.Some? <==> attachments[i].encoded)
  {
    if attachments != [] {
      hide Proposed, FileName, Unique;
      var n := |attachments| - 1;
      var front := attachments[..n];
      PartsAre(front);
      forall i | 0 <= i <= n
        ensures WrittenOf(attachments, i) == WrittenOf(front, i)
      {
        WrittenFront(attachments, i);
      }
      forall i | 0 <= i < n && attachments[i].written
        ensures WrittenOf(attachments, i) < |AddParts(front).parts|
        ensures AddParts(front).parts[WrittenOf(attachments, i)].orig.Some? <==> attachments[i].encoded
      {
        assert front[i] == attachments[i];
      }
    }
  }

  /** How many of the first `n` were written. */
  function WrittenOf(attachments: seq<Attachment>, n: nat): nat
    requires n <= |attachments|
  {
    if n == 0 then 0 else WrittenOf(attachments, n - 1) + if attachments[n - 1].written then 1 else 0
  }

  lemma {:induction false} WrittenFront(attachments: seq<Attachment>, n: nat)
    requires n < |attachments|
    ensures WrittenOf(attachments, n) == WrittenOf(attachments[..|attachments| - 1], n)
  {
    if n > 0 {
      WrittenFront(attachments, n - 1);
    }
  }
}
