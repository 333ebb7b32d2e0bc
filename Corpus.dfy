/**
 * The corpus directory and the `documents` dictionary built from it
 * (`load_documents`), and the name under which `get_response` saves a web
 * answer. A directory is the sequence of its files in listing order; a
 * dictionary is the sequence of its entries in insertion order, which is
 * the order Python iterates `documents.keys()` and `documents.values()` in.
 */
module Corpus {
  import opened Wrappers
  import opened Text

  /** A file (name and text), or a dictionary entry (key and value). */
  datatype Entry = Entry(name: string, content: string)

  const TxtSuffix: string := ".txt"

  predicate EndsWith(s: string, suffix: string)
  {
    |suffix| <= |s| && s[|s| - |suffix|..] == suffix
  }

  /** No two entries share a name: true of a directory and of a dictionary's keys. */
  predicate UniqueNames(entries: seq<Entry>)
  {
    forall i, j :: 0 <= i < j < |entries| ==> entries[i].name != entries[j].name
  }

  /** The value stored under `name`. */
  function Lookup(entries: seq<Entry>, name: string): (r: Option<string>)
    ensures r.None? <==> forall i :: 0 <= i < |entries| ==> entries[i].name != name
    ensures r.Some? ==> Entry(name, r.value) in entries
  {
    if entries == [] then None
    else if entries[0].name == name then Some(entries[0].content)
    else Lookup(entries[1..], name)
  }

  /**
   * `d[name] = content` on a dictionary, and writing a file in a directory:
   * an existing entry keeps its place and takes the new content, a new one is
   * added at the end.
   */
  function Put(entries: seq<Entry>, name: string, content: string): (r: seq<Entry>)
    ensures Lookup(r, name) == Some(content)
    ensures Lookup(entries, name).None? ==> r == entries + [Entry(name, content)]
  {
    if entries == [] then [Entry(name, content)]
    else if entries[0].name == name then [Entry(name, content)] + entries[1..]
    else
      var rest := Put(entries[1..], name, content);
      var r := [entries[0]] + rest;
      assert r[0] == entries[0] && r[1..] == rest;
      r
  }

  /** Putting one name leaves every other name's value as it was. */
  lemma {:induction false} PutKeepsOthers(entries: seq<Entry>, name: string, content: string, other: string)
    requires other != name
    ensures Lookup(Put(entries, name, content), other) == Lookup(entries, other)
  {
    if entries != [] && entries[0].name != name {
      var rest := Put(entries[1..], name, content);
      assert ([entries[0]] + rest)[1..] == rest;
      PutKeepsOthers(entries[1..], name, content, other);
    }
  }

  /** Putting keeps the names unique. */
  lemma {:induction false} PutKeepsUnique(entries: seq<Entry>, name: string, content: string)
    requires UniqueNames(entries)
    ensures UniqueNames(Put(entries, name, content))
  {
    if entries != [] && entries[0].name != name {
      var rest := Put(entries[1..], name, content);
      PutKeepsUnique(entries[1..], name, content);
      forall i | 0 <= i < |rest| ensures rest[i].name != entries[0].name {
        PutNames(entries[1..], name, content, i);
      }
      assert ([entries[0]] + rest)[1..] == rest;
    }
  }

  /** Every name after a put was there before, or is the name put. */
  lemma {:induction false} PutNames(entries: seq<Entry>, name: string, content: string, i: nat)
    requires i < |Put(entries, name, content)|
    ensures Put(entries, name, content)[i].name == name ||
            exists j :: 0 <= j < |entries| && entries[j].name == Put(entries, name, content)[i].name
  {
    if entries != [] && entries[0].name != name && i > 0 {
      var rest := Put(entries[1..], name, content);
      assert ([entries[0]] + rest)[i] == rest[i - 1];
      PutNames(entries[1..], name, content, i - 1);
      if rest[i - 1].name != name {
        var j :| 0 <= j < |entries[1..]| && entries[1..][j].name == rest[i - 1].name;
        assert entries[j + 1] == entries[1..][j];
      }
    }
  }

  /** The `.txt` files of a directory, in listing order. */
  function TxtEntries(files: seq<Entry>): (r: seq<Entry>)
    ensures forall e :: e in r <==> e in files && EndsWith(e.name, TxtSuffix)
    ensures IsSubsequence(r, files)
  {
    if files == [] then []
    else if EndsWith(files[0].name, TxtSuffix) then
      assert ([files[0]] + TxtEntries(files[1..]))[1..] == TxtEntries(files[1..]);
      [files[0]] + TxtEntries(files[1..])
    else
      SubsequenceOfSuffix(TxtEntries(files[1..]), files, 1);
      TxtEntries(files[1..])
  }

  /** `load_documents(folder_path)`: read every `.txt` file into a fresh dictionary. */
  method LoadDocuments(files: seq<Entry>) returns (documents: seq<Entry>)
    requires UniqueNames(files)
    ensures documents == TxtEntries(files)
    ensures UniqueNames(documents)
  {
    documents := [];
    for i := 0 to |files|
      invariant documents == TxtEntries(files[..i])
      invariant UniqueNames(documents)
      invariant forall e :: e in documents ==> e in files[..i]
    {
      assert files[..i + 1] == files[..i] + [files[i]];
      TxtEntriesAppend(files[..i], files[i]);
      var filename := files[i].name;
      if EndsWith(filename, TxtSuffix) {
        forall e | e in documents ensures e.name != filename {
          var j :| 0 <= j < i && files[j] == e;
        }
        LookupAbsent(documents, filename);
        documents := Put(documents, filename, files[i].content);
      }
    }
    assert files[..|files|] == files;
  }

  lemma LookupAbsent(entries: seq<Entry>, name: string)
    requires forall e :: e in entries ==> e.name != name
    ensures Lookup(entries, name).None?
  {
    forall i | 0 <= i < |entries| ensures entries[i].name != name {
      assert entries[i] in entries;
    }
  }

  lemma {:induction false} TxtEntriesAppend(files: seq<Entry>, f: Entry)
    ensures TxtEntries(files + [f]) == TxtEntries(files) + (if EndsWith(f.name, TxtSuffix) then [f] else [])
  {
    if files == [] {
      assert [f][1..] == [];
    } else {
      assert (files + [f])[0] == files[0] && (files + [f])[1..] == files[1..] + [f];
      TxtEntriesAppend(files[1..], f);
    }
  }

  /** `f"{query.replace(' ', '_')}.txt"`. */
  function FileName(query: string): (r: string)
    ensures |r| == |query| + |TxtSuffix|
    ensures EndsWith(r, TxtSuffix)
    ensures forall i :: 0 <= i < |query| ==> r[i] == (if query[i] == ' ' then '_' else query[i])
  {
    seq(|query|, i requires 0 <= i < |query| => if query[i] == ' ' then '_' else query[i]) + TxtSuffix
  }

  /** Two different queries can be saved under the same file, the later overwriting the earlier. */
  lemma FileNameCollision()
    ensures "a b" != "a_b" && FileName("a b") == FileName("a_b")
  {
    assert "a b"[1] != "a_b"[1];
  }

  /** A name with a space is never produced, so a saved file's name has none. */
  lemma FileNameHasNoSpace(query: string)
    ensures ' ' !in FileName(query)
  {
    var r := FileName(query);
    forall i | 0 <= i < |r| ensures r[i] != ' ' {
      if i >= |query| {
        assert r[i] == TxtSuffix[i - |query|];
      }
    }
  }

  /** An answer saved under `FileName(query)` is among the documents loaded next. */
  lemma SavedAnswerIsLoaded(files: seq<Entry>, query: string, answer: string)
    ensures Entry(FileName(query), answer) in TxtEntries(Put(files, FileName(query), answer))
  {
    var r := Put(files, FileName(query), answer);
    assert Entry(FileName(query), answer) in r;
  }
}
