/** The string operations the sync script relies on. */
module Strings {

  /** Python's `s.startswith(prefix)`. */
  predicate StartsWith(s: string, prefix: string)
  {
    |prefix| <= |s| && s[..|prefix|] == prefix
  }

  /** Python's `s.split('.')[0]`: the text of `s` before its first dot, or all of `s` when it has none. */
  function FirstLabel(s: string): (r: string)
    ensures |r| <= |s| && r == s[..|r|]
    ensures '.' !in r
    ensures |r| < |s| ==> s[|r|] == '.'
  {
    if s == [] || s[0] == '.' then [] else [s[0]] + FirstLabel(s[1..])
  }

  /** The three clauses above pin the label down: any dot-free prefix ending at a dot or at the end is it. */
  lemma FirstLabelUnique(s: string, h: string)
    requires |h| <= |s| && h == s[..|h|] && '.' !in h
    requires |h| < |s| ==> s[|h|] == '.'
    ensures FirstLabel(s) == h
  {
    var r := FirstLabel(s);
    assert |r| == |h|;
  }

  /** A dot-free hostname is the first label of any name built as `hostname + "." + rest`. */
  lemma FirstLabelOfDotted(hostname: string, rest: string)
    requires '.' !in hostname
    ensures FirstLabel(hostname + "." + rest) == hostname
  {
    var s := hostname + "." + rest;
    assert s[..|hostname|] == hostname;
    FirstLabelUnique(s, hostname);
  }

}
