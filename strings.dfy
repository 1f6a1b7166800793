/**
 * The functions of Go's `strings` package that rhole.go relies on:
 * `ToLower`, `TrimSuffix`, `Index` (for a one-character needle) and `Fields`.
 */
module Strings {

  /** White space as Go's `unicode.IsSpace` reports it (the Latin-1 spaces and
      the Unicode White_Space property). */
  predicate IsSpace(c: char) {
    || c == '\t' || c == '\n' || c == '\U{000B}' || c == '\U{000C}' || c == '\r' || c == ' '
    || c == '\U{0085}' || c == '\U{00A0}' || c == '\U{1680}'
    || ('\U{2000}' <= c <= '\U{200A}')
    || c == '\U{2028}' || c == '\U{2029}' || c == '\U{202F}' || c == '\U{205F}' || c == '\U{3000}'
  }

  /** Lower-casing of one character (ASCII letters only). */
  function LowerChar(c: char): char {
    if 'A' <= c <= 'Z' then (c as int + 32) as char else c
  }

  /** `strings.ToLower`, character by character. */
  function ToLower(s: string): (r: string)
    ensures |r| == |s|
    ensures forall i :: 0 <= i < |s| ==> r[i] == LowerChar(s[i])
  {
    seq(|s|, i requires 0 <= i < |s| => LowerChar(s[i]))
  }

  lemma LowerCharIdempotent(c: char)
    ensures LowerChar(LowerChar(c)) == LowerChar(c)
  {
  }

  /** Lower-casing twice is lower-casing once. */
  lemma ToLowerIdempotent(s: string)
    ensures ToLower(ToLower(s)) == ToLower(s)
  {
    var once := ToLower(s);
    forall i | 0 <= i < |s|
      ensures ToLower(once)[i] == once[i]
    {
      LowerCharIdempotent(s[i]);
    }
  }

  /** Lower-casing distributes over concatenation. */
  lemma ToLowerAppend(a: string, b: string)
    ensures ToLower(a + b) == ToLower(a) + ToLower(b)
  {
    assert forall i :: 0 <= i < |a + b| ==> ToLower(a + b)[i] == (ToLower(a) + ToLower(b))[i];
  }

  predicate HasSuffix(s: string, suffix: string) {
    |suffix| <= |s| && forall i :: 0 <= i < |suffix| ==> s[|s| - |suffix| + i] == suffix[i]
  }

  /** `strings.TrimSuffix`: drops one occurrence of `suffix` at the end, if any. */
  function TrimSuffix(s: string, suffix: string): (r: string)
    ensures HasSuffix(s, suffix) ==> r + suffix == s
    ensures !HasSuffix(s, suffix) ==> r == s
  {
    if HasSuffix(s, suffix) then s[..|s| - |suffix|] else s
  }

  /** `strings.Index` with a one-character needle: the first position of `c`
      in `s`, or -1 when `c` does not occur (see IndexFindsFirst). */
  function Index(s: string, c: char): (i: int)
    ensures -1 <= i < |s|
  {
    if s == [] then -1
    else if s[0] == c then 0
    else
      var j := Index(s[1..], c);
      if j == -1 then -1 else j + 1
  }

  /** `Index` finds the first occurrence, and -1 means there is none. */
  lemma {:induction false} IndexFindsFirst(s: string, c: char)
    ensures Index(s, c) == -1 <==> c !in s
    ensures 0 <= Index(s, c) ==> s[Index(s, c)] == c && c !in s[..Index(s, c)]
    decreases |s|
  {
    if s != [] && s[0] != c {
      IndexFindsFirst(s[1..], c);
      var j := Index(s[1..], c);
      if j != -1 {
        assert s[..j + 1] == [s[0]] + s[1..][..j];
      } else {
        assert s == [s[0]] + s[1..];
      }
    }
  }

  /** Length of the run of non-space characters that starts `s`. */
  function WordLen(s: string): (n: nat)
    ensures n <= |s|
  {
    if s == [] || IsSpace(s[0]) then 0 else 1 + WordLen(s[1..])
  }

  /** The run `WordLen` measures is maximal. */
  lemma {:induction false} WordLenMaximal(s: string)
    ensures forall i :: 0 <= i < WordLen(s) ==> !IsSpace(s[i])
    ensures WordLen(s) < |s| ==> IsSpace(s[WordLen(s)])
    decreases |s|
  {
    if s != [] && !IsSpace(s[0]) {
      WordLenMaximal(s[1..]);
    }
  }

  /** A field: non-empty and free of white space. */
  predicate IsWord(w: string) {
    w != [] && forall i :: 0 <= i < |w| ==> !IsSpace(w[i])
  }

  predicate AllSpace(s: string) {
    forall i :: 0 <= i < |s| ==> IsSpace(s[i])
  }

  /** `strings.Fields`: the maximal runs of non-space characters of `s`, in
      order; every field is a word. */
  function Fields(s: string): (r: seq<string>)
    ensures forall k :: 0 <= k < |r| ==> IsWord(r[k])
    decreases |s|
  {
    if s == [] then []
    else if IsSpace(s[0]) then Fields(s[1..])
    else
      var n := WordLen(s);
      WordLenMaximal(s);
      [s[..n]] + Fields(s[n..])
  }

  /** A string of white space only (a blank line) has no fields. */
  lemma {:induction false} FieldsOfBlank(s: string)
    requires AllSpace(s)
    ensures Fields(s) == []
    decreases |s|
  {
    if s != [] {
      FieldsOfBlank(s[1..]);
    }
  }

  /** A word that is followed by white space ends where that white space starts. */
  lemma {:induction false} WordLenBeforeSpace(a: string, sp: char, b: string)
    requires IsSpace(sp)
    ensures WordLen(a + [sp] + b) == WordLen(a)
    decreases |a|
  {
    if a == [] {
      assert (a + [sp] + b)[0] == sp;
    } else if !IsSpace(a[0]) {
      assert (a + [sp] + b)[1..] == a[1..] + [sp] + b;
      WordLenBeforeSpace(a[1..], sp, b);
    }
  }

  /** Splitting at a white-space character splits the fields. */
  lemma {:induction false} FieldsSplit(a: string, sp: char, b: string)
    requires IsSpace(sp)
    ensures Fields(a + [sp] + b) == Fields(a) + Fields(b)
    decreases |a|
  {
    var s := a + [sp] + b;
    if a == [] {
      assert s[1..] == b;
    } else if IsSpace(a[0]) {
      assert s[1..] == a[1..] + [sp] + b;
      FieldsSplit(a[1..], sp, b);
    } else {
      var n := WordLen(a);
      WordLenBeforeSpace(a, sp, b);
      assert s[..n] == a[..n];
      assert s[n..] == a[n..] + [sp] + b;
      FieldsSplit(a[n..], sp, b);
    }
  }

  /** A word is its own only field. */
  lemma FieldsOfWord(w: string)
    requires IsWord(w)
    ensures Fields(w) == [w]
  {
    var n := WordLen(w);
    WordLenMaximal(w);
    assert n == |w|;
    assert w[..n] == w && w[n..] == [];
    assert Fields(w) == [w[..n]] + Fields(w[n..]);
  }

  /** The words joined with single spaces. */
  function Unwords(ws: seq<string>): string
    decreases |ws|
  {
    if ws == [] then [] else if |ws| == 1 then ws[0] else ws[0] + [' '] + Unwords(ws[1..])
  }

  /** `Fields` recovers the words that `Unwords` joined. */
  lemma {:induction false} FieldsUnwords(ws: seq<string>)
    requires forall k :: 0 <= k < |ws| ==> IsWord(ws[k])
    ensures Fields(Unwords(ws)) == ws
    decreases |ws|
  {
    if ws == [] {
    } else if |ws| == 1 {
      FieldsOfWord(ws[0]);
    } else {
      FieldsSplit(ws[0], ' ', Unwords(ws[1..]));
      FieldsOfWord(ws[0]);
      FieldsUnwords(ws[1..]);
      assert [ws[0]] + ws[1..] == ws;
    }
  }
}
