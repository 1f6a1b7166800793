/**
 * `normalize` (rhole.go): the key under which a domain name is looked up in
 * the denylist. The IDNA conversion `idna.ToASCII` is a parameter that either
 * returns the ASCII-compatible form or fails (None).
 */
module Domain {
  import opened Wrappers
  import opened Strings

  /** The string that `normalize` hands to the IDNA conversion: the name
      lower-cased, with one trailing "." (the root label) removed. */
  function Folded(domain: string): string {
    TrimSuffix(ToLower(domain), ".")
  }

  /** The key: the IDNA form of the folded name; when the conversion fails,
      the folded name itself, which has no ASCII capital and is the
      lower-cased name with one trailing dot dropped when it ends in one. */
  function Normalize(toASCII: string -> Option<string>, domain: string): (key: string)
    ensures toASCII(Folded(domain)).Some? ==> key == toASCII(Folded(domain)).value
    ensures toASCII(Folded(domain)).None? ==>
      && (if HasSuffix(ToLower(domain), ".") then key + "." == ToLower(domain) else key == ToLower(domain))
      && forall i :: 0 <= i < |key| ==> !('A' <= key[i] <= 'Z')
  {
    var folded := Folded(domain);
    FoldedDropsOneDot(domain);
    match toASCII(folded)
    case Some(norm) => norm
    case None => folded
  }

  /** The key depends on the name only through `Folded`: names that agree
      after lower-casing and dropping one trailing dot get the same key. */
  lemma NormalizeSeesOnlyFolded(toASCII: string -> Option<string>, a: string, b: string)
    requires Folded(a) == Folded(b)
    ensures Normalize(toASCII, a) == Normalize(toASCII, b)
  {
  }

  /** Folding removes one trailing dot, when there is one, and keeps
      everything else. */
  lemma FoldedDropsOneDot(domain: string)
    ensures if HasSuffix(ToLower(domain), ".") then Folded(domain) + "." == ToLower(domain)
            else Folded(domain) == ToLower(domain)
    ensures |Folded(domain)| >= |domain| - 1
    ensures forall i :: 0 <= i < |Folded(domain)| ==> !('A' <= Folded(domain)[i] <= 'Z')
  {
    var low := ToLower(domain);
    assert forall i :: 0 <= i < |Folded(domain)| ==> Folded(domain)[i] == low[i];
  }

  /** Case does not matter. */
  lemma {:induction false} NormalizeIgnoresCase(toASCII: string -> Option<string>, domain: string)
    ensures Normalize(toASCII, ToLower(domain)) == Normalize(toASCII, domain)
  {
    ToLowerIdempotent(domain);
  }

  /** A single trailing root dot does not matter. */
  lemma {:induction false} NormalizeIgnoresRootDot(toASCII: string -> Option<string>, domain: string)
    requires !HasSuffix(domain, ".")
    ensures Normalize(toASCII, domain + ".") == Normalize(toASCII, domain)
  {
    ToLowerAppend(domain, ".");
    var low := ToLower(domain);
    assert ToLower(".") == ".";
    if |domain| > 0 {
      assert domain[|domain| - 1..] == [domain[|domain| - 1]];
      assert low[|low| - 1..] == [LowerChar(domain[|domain| - 1])];
    }
    assert !HasSuffix(low, ".");
    assert (low + ".")[..|low + "."| - 1] == low;
  }

  /** "Example.COM." and "example.com" are looked up under the same key. */
  lemma NormalizeExample(toASCII: string -> Option<string>)
    ensures Normalize(toASCII, "Example.COM.") == Normalize(toASCII, "example.com")
  {
    assert ToLower("Example.COM.") == "example.com.";
    assert ToLower("example.com") == "example.com";
    assert Folded("Example.COM.") == Folded("example.com");
  }

  /** Only one dot goes: "a.." folds to "a.", and a second normalization folds
      that to "a", so normalizing is not idempotent whenever the IDNA
      conversion leaves these plain ASCII names alone (or fails on them). */
  lemma NormalizeNotIdempotent(toASCII: string -> Option<string>)
    requires toASCII("a.") in {None, Some("a.")}
    requires toASCII("a") in {None, Some("a")}
    ensures Normalize(toASCII, "a..") == "a."
    ensures Normalize(toASCII, Normalize(toASCII, "a..")) == "a"
  {
    assert ToLower("a..") == "a..";
    assert Folded("a..") == "a.";
    assert ToLower("a.") == "a.";
    assert Folded("a.") == "a";
  }
}
