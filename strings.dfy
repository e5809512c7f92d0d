/** Small facts about strings used by the proofs of the other modules. */
module Strings {

  /** Concatenation is associative. */
  lemma Assoc(a: string, b: string, c: string)
    ensures a + b + c == a + (b + c)
  {
  }

  /** `s` is a prefix of `l`. */
  predicate IsPrefix(s: string, l: string)
  {
    |s| <= |l| && l[..|s|] == s
  }

  /** Anything is a prefix of itself followed by more text. */
  lemma PrefixOfAppend(s: string, t: string)
    ensures IsPrefix(s, s + t)
  {
    assert (s + t)[..|s|] == s;
  }

  /** Being a prefix is transitive. */
  lemma PrefixTrans(a: string, b: string, c: string)
    requires IsPrefix(a, b) && IsPrefix(b, c)
    ensures IsPrefix(a, c)
  {
    assert c[..|a|] == c[..|b|][..|a|];
  }
}
