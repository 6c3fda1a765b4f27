/** The `str.startswith` / `str.endswith` tests the signal-name lookups use. */
module Strings {

  predicate StartsWith(s: string, prefix: string)
  {
    |prefix| <= |s| && s[..|prefix|] == prefix
  }

  predicate EndsWith(s: string, suffix: string)
  {
    |suffix| <= |s| && s[|s| - |suffix|..] == suffix
  }

  /** A name joined as `m + sep + s` starts with `m`. */
  lemma JoinedStartsWith(m: string, sep: string, s: string)
    ensures StartsWith(m + sep + s, m)
  {
    assert (m + sep + s)[..|m|] == m;
  }
}
