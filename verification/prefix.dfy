/** String prefixes: the only notion of "scope" the crawler has. */
module Prefix {

  /** True iff `s` begins with `p` (Python's `s.startswith(p)`). */
  predicate StartsWith(s: string, p: string) {
    |p| <= |s| && s[..|p|] == p
  }

  /** Every string starts with the empty string and with itself. */
  lemma StartsWithSelf(s: string)
    ensures StartsWith(s, s)
    ensures StartsWith(s, "")
  {
  }

  /** Prepending `p` yields a string that starts with `p`. */
  lemma ConcatStartsWith(p: string, t: string)
    ensures StartsWith(p + t, p)
  {
    assert (p + t)[..|p|] == p;
  }
}
