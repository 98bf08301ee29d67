/** Texts joined with a separator character: which texts hold none, and where the first one stands. */
module Separators {

  predicate Free(separator: char, s: string) {
    forall i | 0 <= i < |s| :: s[i] != separator
  }

  predicate AllFree(separator: char, segments: seq<string>) {
    forall i | 0 <= i < |segments| :: Free(separator, segments[i])
  }

  lemma FirstSeparator(separator: char, a: string, x: string, b: string, y: string)
    requires Free(separator, b) && a + [separator] + x == b + [separator] + y
    ensures |b| <= |a|
  {
    var s, t := a + [separator] + x, b + [separator] + y;
    assert s[|a|] == separator;
    assert forall i | 0 <= i < |b| :: t[i] == b[i];
  }

  /** Splitting at a separator is unambiguous when both first parts hold none, or are the same. */
  lemma HeadsAgree(separator: char, a: string, x: string, b: string, y: string)
    requires a + [separator] + x == b + [separator] + y
    requires (Free(separator, a) && Free(separator, b)) || a == b
    ensures a == b && x == y
  {
    if a != b {
      FirstSeparator(separator, a, x, b, y);
      FirstSeparator(separator, b, y, a, x);
    }
    var s, t := a + [separator] + x, b + [separator] + y;
    assert a == s[..|a|] == t[..|b|] == b;
    assert x == s[|a| + 1..] == t[|b| + 1..] == y;
  }

  lemma SplitAtSeparator(separator: char, s: string) returns (a: string, b: string)
    requires !Free(separator, s)
    ensures s == a + [separator] + b
  {
    var i :| 0 <= i < |s| && s[i] == separator;
    a, b := s[..i], s[i + 1..];
  }
}
