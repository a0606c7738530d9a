/** The loops of mms_task_decode.c over the arrays of names and of content ids. */
module NameTable {
  import opened Common
  import opened FileNames

  class Strings {
    var entries: seq<string>

    constructor ()
      ensures entries == []
    {
      entries := [];
    }

    /** mms_task_decode_array_contains_string */
    method Contains(str: string) returns (found: bool)
      ensures found <==> str in entries
    {
      for i := 0 to |entries|
        invariant str !in entries[..i]
      {
        if entries[i] == str {
          return true;
        }
        assert entries[..i + 1] == entries[..i] + [entries[i]];
      }
      assert entries[..|entries|] == entries;
      return false;
    }

    /** Puts underscores in front until nothing else has that name, and adds it. */
    method AddUnique(proposed: string) returns (name: string)
      modifies this
      ensures name == Unique(old(entries), proposed) && entries == old(entries) + [name]
    {
      name := proposed;
      var taken := Contains(name);
      while taken
        invariant entries == old(entries) && (taken <==> name in entries)
        invariant Unique(entries, proposed) == Unique(entries, name)
        decreases Longest(entries) + 1 - |name|, taken
      {
        LongestIs(entries, name);
        name := "_" + name;
        taken := Contains(name);
      }
      entries := entries + [name];
    }

    /** mms_task_decode_add_file_name */
    method AddFileName(proposed: string) returns (file: string)
      modifies this
      ensures file == FileName(old(entries), proposed) && entries == old(entries) + [file]
    {
      var clean := Clean(proposed);
      file := AddUnique(clean);
    }
  }

  /** The copying loop, character by character. */
  method Clean(proposed: string) returns (dest: string)
    ensures dest == Sanitized(proposed)
  {
    dest := "";
    for i := 0 to |proposed|
      invariant dest == Sanitized(proposed[..i])
    {
      SanitizedNext(proposed, i);
      match proposed[i] {
        case '<' => case '>' => case '[' => case ']' =>
        case '/' => dest := dest + "_";
        case '\\' => dest := dest + "_";
        case c => dest := dest + [c];
      }
    }
    assert proposed[..|proposed|] == proposed;
  }

  lemma {:induction false} SanitizedBoth(a: string, b: string)
    ensures Sanitized(a + b) == Sanitized(a) + Sanitized(b)
  {
    if a == [] {
      assert a + b == b;
    } else {
      assert (a + b)[1..] == a[1..] + b;
      SanitizedBoth(a[1..], b);
    }
  }

  lemma SanitizedNext(s: string, i: nat)
    requires i < |s|
    ensures Sanitized(s[..i + 1])
      == Sanitized(s[..i]) + if Dropped(s[i]) then "" else if Replaced(s[i]) then "_" else [s[i]]
  {
    assert s[..i + 1] == s[..i] + [s[i]];
    SanitizedBoth(s[..i], [s[i]]);
    assert Sanitized([s[i]][1..]) == [];
  }

  /** The loop over the attachments in mms_task_decode_retrieve_conf. */
  method NameParts(attachments: seq<Attachment>) returns (parts: seq<Part>, files: Strings, ids: Strings)
    ensures fresh(files) && fresh(ids)
    ensures Names(files.entries, ids.entries, parts) == AddParts(attachments)
  {
    hide FileName, Unique, Proposed;
    files := new Strings();
    ids := new Strings();
    parts := [];
    for i := 0 to |attachments|
      invariant fresh(files) && fresh(ids) && files != ids
      invariant Names(files.entries, ids.entries, parts) == AddParts(attachments[..i])
    {
      var a := attachments[i];
      assert attachments[..i + 1][..i] == attachments[..i];
      var file := files.AddFileName(Proposed(a, i));
      if a.written {
        var id := ids.AddUnique(if a.id.Some? then a.id.value else "<" + file + ">");
        if a.encoded {
          var orig := files.AddFileName(file + ".orig");
          parts := parts + [Part(file, Some(orig), id)];
        } else {
          parts := parts + [Part(file, None, id)];
        }
      }
    }
    assert attachments[..|attachments|] == attachments;
  }
}
