/**
 * Building the denylist: `readLists` turns list files into a set of keys, and
 * `main` removes the allowlist's keys from the denylist's.
 */
module Lists {
  import opened Wrappers
  import opened Strings
  import opened Domain

  /** A list file as `readLists` sees it: the lines its scanner produced, or a
      failure to open or to scan it. */
  datatype ListFile = Lines(lines: seq<string>) | Unreadable

  /** The part of a line before its first "#": a prefix without "#",
      followed in the line by a "#" unless it is the whole line. */
  function StripComment(line: string): (r: string)
    ensures '#' !in r
    ensures r <= line
    ensures '#' in line ==> |r| < |line| && line[|r|] == '#'
    ensures '#' !in line ==> r == line
  {
    var indx := Index(line, '#');
    IndexFindsFirst(line, '#');
    if indx != -1 then line[..indx] else line
  }

  /** The key `readLists` stores for a field. */
  function Normalizer(toASCII: string -> Option<string>): string -> string {
    d => Normalize(toASCII, d)
  }

  /** The keys of a sequence of fields: each field's image under `norm`
      (`Normalizer(toASCII)` for the keys `readLists` stores). */
  function Keys(norm: string -> string, parts: seq<string>): set<string>
    decreases |parts|
  {
    if parts == [] then {}
    else Keys(norm, parts[..|parts| - 1]) + {norm(parts[|parts| - 1])}
  }

  /** The keys one line contributes. */
  function LineKeys(norm: string -> string, line: string): set<string> {
    Keys(norm, Fields(StripComment(line)))
  }

  /** The keys `readLists` stores for one line. */
  function StoredKeys(toASCII: string -> Option<string>): string -> set<string> {
    line => LineKeys(Normalizer(toASCII), line)
  }

  /** The keys of a file's lines, `lineKeys` giving those of one line
      (`StoredKeys(toASCII)` for `readLists`). */
  function LinesKeys(lineKeys: string -> set<string>, lines: seq<string>): set<string>
    decreases |lines|
  {
    if lines == [] then {}
    else LinesKeys(lineKeys, lines[..|lines| - 1]) + lineKeys(lines[|lines| - 1])
  }

  /** What `readLists` returns for the first `n` files: the keys of all their
      lines, or None once one of them is unreadable. */
  function ListsKeys(lineKeys: string -> set<string>, files: seq<ListFile>, n: nat): Option<set<string>>
    requires n <= |files|
  {
    if n == 0 then Some({})
    else
      match ListsKeys(lineKeys, files, n - 1)
      case None => None
      case Some(keys) =>
        match files[n - 1]
        case Unreadable => None
        case Lines(lines) => Some(keys + LinesKeys(lineKeys, lines))
  }

  /** `readLists` (without the hosts-file branch, which is never taken): every
      white-space separated field before the first "#" of every line of every
      file is normalized and added to the set; any unreadable file makes the
      whole read fail. */
  method ReadLists(toASCII: string -> Option<string>, files: seq<ListFile>) returns (r: Option<set<string>>)
    ensures r == ListsKeys(StoredKeys(toASCII), files, |files|)
  {
    var list: set<string> := {};
    var i := 0;
    while i < |files|
      invariant 0 <= i <= |files|
      invariant ListsKeys(StoredKeys(toASCII), files, i) == Some(list)
    {
      match files[i]
      case Unreadable =>
        ListsKeysFailureSticks(StoredKeys(toASCII), files, i + 1, |files|);
        return None;
      case Lines(lines) =>
        ListsKeysStep(StoredKeys(toASCII), files, i, list);
        list := AddFile(toASCII, list, lines);
        i := i + 1;
    }
    return Some(list);
  }

  /** `readLists`' scanner loop over the lines of one file. */
  method AddFile(toASCII: string -> Option<string>, list: set<string>, lines: seq<string>) returns (r: set<string>)
    ensures r == list + LinesKeys(StoredKeys(toASCII), lines)
  {
    r := list;
    var j := 0;
    while j < |lines|
      invariant 0 <= j <= |lines|
      invariant r == list + LinesKeys(StoredKeys(toASCII), lines[..j])
    {
      r := AddLine(Normalizer(toASCII), r, lines[j]);
      LinesKeysSnoc(StoredKeys(toASCII), lines, j);
      j := j + 1;
    }
    assert lines[..j] == lines;
  }

  /** The body of `readLists`' scanner loop: drop the comment, split the rest
      into fields and insert each field's key. */
  method AddLine(norm: string -> string, list: set<string>, text: string) returns (r: set<string>)
    ensures r == list + LineKeys(norm, text)
  {
    r := list;
    var line := text;
    var indx := Index(line, '#');
    if indx != -1 {
      line := line[..indx];
    }
    var parts := Fields(line);
    var k := 0;
    while k < |parts|
      invariant 0 <= k <= |parts|
      invariant r == list + Keys(norm, parts[..k])
    {
      r := r + {norm(parts[k])};
      KeysSnoc(norm, parts, k);
      k := k + 1;
    }
    assert line == StripComment(text);
    assert parts[..k] == parts;
  }

  /** The allowlist loop of `main`: every allowlisted key is deleted from the
      denylist. */
  method RemoveAllowed(black: set<string>, white: set<string>) returns (r: set<string>)
    ensures r == black - white
  {
    r := black;
    var rest := white;
    while rest != {}
      invariant rest <= white
      invariant r == black - (white - rest)
      decreases rest
    {
      var ent :| ent in rest;
      r := r - {ent};
      rest := rest - {ent};
    }
  }

  /** The denylist `main` hands to the server: the denylist files' keys minus
      the allowlist files' keys, or a failure when either read fails. */
  method LoadDenylist(toASCII: string -> Option<string>, blacklists: seq<ListFile>, whitelists: seq<ListFile>)
    returns (r: Option<set<string>>)
    ensures match (ListsKeys(StoredKeys(toASCII), blacklists, |blacklists|), ListsKeys(StoredKeys(toASCII), whitelists, |whitelists|))
      case (Some(black), Some(white)) => r == Some(black - white)
      case _ => r == None
  {
    var black := ReadLists(toASCII, blacklists);
    if black.None? {
      return None;
    }
    var white := ReadLists(toASCII, whitelists);
    if white.None? {
      return None;
    }
    var kept := RemoveAllowed(black.value, white.value);
    return Some(kept);
  }

  /** One more readable file adds its lines' keys. */
  lemma ListsKeysStep(lineKeys: string -> set<string>, files: seq<ListFile>, i: nat, keys: set<string>)
    requires i < |files| && files[i].Lines?
    requires ListsKeys(lineKeys, files, i) == Some(keys)
    ensures ListsKeys(lineKeys, files, i + 1) == Some(keys + LinesKeys(lineKeys, files[i].lines))
  {
  }

  /** Once a file is unreadable, reading more files does not help. */
  lemma {:induction false} ListsKeysFailureSticks(lineKeys: string -> set<string>, files: seq<ListFile>, i: nat, n: nat)
    requires i <= n <= |files|
    requires ListsKeys(lineKeys, files, i) == None
    ensures ListsKeys(lineKeys, files, n) == None
    decreases n
  {
    if n > i {
      ListsKeysFailureSticks(lineKeys, files, i, n - 1);
    }
  }

  /** The read succeeds exactly when every file is readable. */
  lemma {:induction false} ListsKeysSucceeds(lineKeys: string -> set<string>, files: seq<ListFile>, n: nat)
    requires n <= |files|
    ensures ListsKeys(lineKeys, files, n).Some? <==> forall i :: 0 <= i < n ==> files[i].Lines?
    decreases n
  {
    if n > 0 {
      ListsKeysSucceeds(lineKeys, files, n - 1);
    }
  }

  /** On success, a key is a key of one of the files, and every file's keys are there. */
  lemma {:induction false} ListsKeysMember(lineKeys: string -> set<string>, files: seq<ListFile>, n: nat, x: string)
    requires n <= |files|
    requires ListsKeys(lineKeys, files, n).Some?
    ensures x in ListsKeys(lineKeys, files, n).value <==>
            exists i :: 0 <= i < n && files[i].Lines? && x in LinesKeys(lineKeys, files[i].lines)
    decreases n
  {
    if n > 0 {
      ListsKeysMember(lineKeys, files, n - 1, x);
    }
  }

  lemma KeysSnoc(norm: string -> string, parts: seq<string>, k: nat)
    requires k < |parts|
    ensures Keys(norm, parts[..k + 1]) == Keys(norm, parts[..k]) + {norm(parts[k])}
  {
    assert parts[..k + 1][..k] == parts[..k];
  }

  lemma LinesKeysSnoc(lineKeys: string -> set<string>, lines: seq<string>, j: nat)
    requires j < |lines|
    ensures LinesKeys(lineKeys, lines[..j + 1]) == LinesKeys(lineKeys, lines[..j]) + lineKeys(lines[j])
  {
    assert lines[..j + 1][..j] == lines[..j];
  }

  /** A key of a sequence of fields is the key of one of them, and every
      field's key is there. */
  lemma {:induction false} KeysMember(norm: string -> string, parts: seq<string>, x: string)
    ensures x in Keys(norm, parts) <==> exists i :: 0 <= i < |parts| && x == norm(parts[i])
    decreases |parts|
  {
    if parts != [] {
      var n := |parts| - 1;
      var init := parts[..n];
      assert Keys(norm, parts) == Keys(norm, init) + {norm(parts[n])};
      KeysMember(norm, init, x);
      if x in Keys(norm, init) {
        var i :| 0 <= i < |init| && x == norm(init[i]);
        assert parts[i] == init[i];
      }
      forall i | 0 <= i < |parts| && x == norm(parts[i])
        ensures x in Keys(norm, parts)
      {
        if i < n {
          assert init[i] == parts[i];
        }
      }
    }
  }

  /** A key of a file is a key of one of its lines, and every line's keys are there. */
  lemma {:induction false} LinesKeysMember(lineKeys: string -> set<string>, lines: seq<string>, x: string)
    ensures x in LinesKeys(lineKeys, lines) <==> exists j :: 0 <= j < |lines| && x in lineKeys(lines[j])
    decreases |lines|
  {
    if lines != [] {
      var n := |lines| - 1;
      var init := lines[..n];
      assert LinesKeys(lineKeys, lines) == LinesKeys(lineKeys, init) + lineKeys(lines[n]);
      LinesKeysMember(lineKeys, init, x);
      if x in LinesKeys(lineKeys, init) {
        var j :| 0 <= j < |init| && x in lineKeys(init[j]);
        assert lines[j] == init[j];
      }
      forall j | 0 <= j < |lines| && x in lineKeys(lines[j])
        ensures x in LinesKeys(lineKeys, lines)
      {
        if j < n {
          assert init[j] == lines[j];
        }
      }
    }
  }

  /** Reading two pieces of a file one after the other gives the union of
      their keys. */
  lemma {:induction false} LinesKeysAppend(lineKeys: string -> set<string>, a: seq<string>, b: seq<string>)
    ensures LinesKeys(lineKeys, a + b) == LinesKeys(lineKeys, a) + LinesKeys(lineKeys, b)
    decreases |b|
  {
    if b == [] {
      assert a + b == a;
    } else {
      var init := b[..|b| - 1];
      assert (a + b)[..|a + b| - 1] == a + init;
      assert (a + b)[|a + b| - 1] == b[|b| - 1];
      LinesKeysAppend(lineKeys, a, init);
    }
  }

  /** The order of the lines does not matter. */
  lemma LinesKeysOrderFree(lineKeys: string -> set<string>, a: seq<string>, b: seq<string>)
    ensures LinesKeys(lineKeys, a + b) == LinesKeys(lineKeys, b + a)
  {
    LinesKeysAppend(lineKeys, a, b);
    LinesKeysAppend(lineKeys, b, a);
  }

  /** A line that repeats an earlier one adds nothing. */
  lemma RepeatedLineAddsNothing(lineKeys: string -> set<string>, lines: seq<string>, j: nat)
    requires j < |lines|
    ensures LinesKeys(lineKeys, lines + [lines[j]]) == LinesKeys(lineKeys, lines)
  {
    assert (lines + [lines[j]])[..|lines|] == lines;
    forall x | x in lineKeys(lines[j])
      ensures x in LinesKeys(lineKeys, lines)
    {
      LinesKeysMember(lineKeys, lines, x);
    }
  }

  /** Text from the first "#" on is ignored. */
  lemma TextAfterHashIgnored(norm: string -> string, line: string, comment: string)
    requires '#' !in line
    ensures LineKeys(norm, line + "#" + comment) == LineKeys(norm, line)
  {
    var full := line + "#" + comment;
    assert full[|line|] == '#';
    assert full[..|line|] == line;
  }

  /** A blank line, or one whose only non-space text is a comment, adds nothing. */
  lemma BlankOrCommentLineAddsNothing(toASCII: string -> Option<string>, lines: seq<string>, line: string)
    requires AllSpace(StripComment(line))
    ensures LinesKeys(StoredKeys(toASCII), lines + [line]) == LinesKeys(StoredKeys(toASCII), lines)
  {
    FieldsOfBlank(StripComment(line));
    assert (lines + [line])[..|lines|] == lines;
  }

  /** The keys of a line that lists the given words. */
  lemma LineOfWordsKeys(norm: string -> string, ws: seq<string>, x: string)
    requires forall k :: 0 <= k < |ws| ==> IsWord(ws[k]) && '#' !in ws[k]
    ensures x in LineKeys(norm, Unwords(ws)) <==> exists i :: 0 <= i < |ws| && x == norm(ws[i])
  {
    UnwordsNoHash(ws);
    FieldsUnwords(ws);
    KeysMember(norm, ws, x);
  }

  lemma {:induction false} UnwordsNoHash(ws: seq<string>)
    requires forall k :: 0 <= k < |ws| ==> '#' !in ws[k]
    ensures '#' !in Unwords(ws)
    decreases |ws|
  {
    if |ws| > 1 {
      UnwordsNoHash(ws[1..]);
    }
  }
}
