/** What text readers share: runs of characters, fixed words, and the text after them. */
module Scanning {
  import opened Wrappers

  /** The length of the longest prefix whose characters all satisfy `p`. */
  function RunLength(p: char -> bool, s: string): (n: nat)
    ensures n <= |s| && (forall i | 0 <= i < n :: p(s[i])) && (n == |s| || !p(s[n]))
  {
    if s == "" || !p(s[0]) then 0 else 1 + RunLength(p, s[1..])
  }

  /** Text that cannot extend a run. */
  predicate Ends(p: char -> bool, rest: string) {
    rest == "" || !p(rest[0])
  }

  lemma {:induction false} RunLengthOf(p: char -> bool, t: string, rest: string)
    requires (forall i | 0 <= i < |t| :: p(t[i])) && Ends(p, rest)
    ensures RunLength(p, t + rest) == |t|
  {
    if t == "" {
      assert t + rest == rest;
    } else {
      assert (t + rest)[1..] == t[1..] + rest;
      RunLengthOf(p, t[1..], rest);
    }
  }

  function ReadWord<V>(s: string, word: string, v: V): (r: Option<(V, string)>)
    requires word != ""
    ensures r.Some? ==> |r.value.1| < |s|
  {
    if word <= s then Some((v, s[|word|..])) else None
  }

  lemma WordReadsBack<V>(word: string, v: V, rest: string)
    requires word != ""
    ensures ReadWord(word + rest, word, v) == Some((v, rest))
  {
    assert (word + rest)[|word|..] == rest;
  }

  /** A text of one run whose first character satisfies `start`. */
  predicate IsRun(start: char -> bool, p: char -> bool, t: string) {
    t != "" && start(t[0]) && forall i | 0 <= i < |t| :: p(t[i])
  }

  /** Read the longest run and say what it means, if anything. */
  function ReadRun<V>(p: char -> bool, meaning: string -> Option<V>, s: string): Option<(V, string)> {
    var n := RunLength(p, s);
    match meaning(s[..n])
    case None => None
    case Some(v) => Some((v, s[n..]))
  }

  lemma RunReadsBack<V>(p: char -> bool, meaning: string -> Option<V>, t: string, rest: string)
    requires (forall i | 0 <= i < |t| :: p(t[i])) && Ends(p, rest)
    ensures ReadRun(p, meaning, t + rest)
            == match meaning(t) case None => None case Some(v) => Some((v, rest))
  {
    RunLengthOf(p, t, rest);
    assert (t + rest)[..|t|] == t && (t + rest)[|t|..] == rest;
  }
}
