/** The provider fallback chain: its traversal order, and what failing the current candidate over and
    over does. */
module FallbackChain {
  import opened Sequences
  import opened Wrappers

  datatype ProviderFamily = Anthropic | OpenAI | Google | LocalOpenWeight

  datatype ProviderCandidate = ProviderCandidate(provider: string, model: string, family: ProviderFamily)

  type Candidates = seq<ProviderCandidate>

  datatype FallbackChain = FallbackChain(primary: ProviderCandidate, sameFamily: Candidates,
                                         crossFamily: Candidates, terminal: Option<ProviderCandidate>)

  datatype OnFailureResult = OnFailureResult(nextCandidate: Option<ProviderCandidate>,
                                             crossFamilyTriggered: bool, cacheStateLost: bool)

  /** Where each candidate stands: the primary first, then every same-family fallback in its order, then
      every cross-family one, the terminal last, and nothing else. */
  predicate InFallThroughOrder(cs: Candidates, chain: FallbackChain) {
    var (m, n) := (1 + |chain.sameFamily|, 1 + |chain.sameFamily| + |chain.crossFamily|);
    && |cs| == n + (if chain.terminal.Some? then 1 else 0)
    && cs[0] == chain.primary
    && (forall i | 0 <= i < |chain.sameFamily| :: cs[1 + i] == chain.sameFamily[i])
    && (forall i | 0 <= i < |chain.crossFamily| :: cs[m + i] == chain.crossFamily[i])
    && (chain.terminal.Some? ==> cs[n] == chain.terminal.value)
  }

  lemma FourParts(a: Candidates, b: Candidates, c: Candidates, d: Candidates, j: nat)
    requires j < |a| + |b| + |c| + |d|
    ensures (a + b + c + d)[j]
            == if j < |a| then a[j]
               else if j < |a| + |b| then b[j - |a|]
               else if j < |a| + |b| + |c| then c[j - |a| - |b|]
               else d[j - |a| - |b| - |c|]
  {
  }

  lemma PartsInOrder(chain: FallbackChain, last: Candidates)
    requires last == match chain.terminal case Some(t) => [t] case None => []
    ensures InFallThroughOrder([chain.primary] + chain.sameFamily + chain.crossFamily + last, chain)
  {
    var a, b, c := [chain.primary], chain.sameFamily, chain.crossFamily;
    var cs := a + b + c + last;
    FourParts(a, b, c, last, 0);
    forall i | 0 <= i < |b| ensures cs[1 + i] == b[i] {
      FourParts(a, b, c, last, 1 + i);
    }
    forall i | 0 <= i < |c| ensures cs[1 + |b| + i] == c[i] {
      FourParts(a, b, c, last, 1 + |b| + i);
    }
    if chain.terminal.Some? { FourParts(a, b, c, last, 1 + |b| + |c|); }
  }

  function Traversal(chain: FallbackChain): (cs: Candidates)
    ensures InFallThroughOrder(cs, chain)
  {
    var last := match chain.terminal case Some(t) => [t] case None => [];
    PartsInOrder(chain, last);
    [chain.primary] + chain.sameFamily + chain.crossFamily + last
  }

  /** There is one such order. */
  lemma FallThroughOrderUnique(chain: FallbackChain, cs: Candidates)
    requires InFallThroughOrder(cs, chain)
    ensures cs == Traversal(chain)
  {
    var t, m := Traversal(chain), 1 + |chain.sameFamily|;
    assert |cs| == |t|;
    forall i | 0 <= i < |cs| ensures cs[i] == t[i] {
      if 1 <= i < m {
        assert cs[1 + (i - 1)] == chain.sameFamily[i - 1];
      } else if m <= i < m + |chain.crossFamily| {
        assert cs[m + (i - m)] == chain.crossFamily[i - m];
      }
    }
  }

  lemma TraversalIs(p: ProviderCandidate, same: Candidates, cross: Candidates, t: ProviderCandidate)
    ensures Traversal(FallbackChain(p, same, cross, None)) == [p] + same + cross
    ensures Traversal(FallbackChain(p, same, cross, Some(t))) == [p] + same + cross + [t]
  {
    hide InFallThroughOrder;
  }

  method OrderedCandidates(chain: FallbackChain) returns (ordered: Candidates)
    ensures InFallThroughOrder(ordered, chain)
  {
    hide InFallThroughOrder;
    ordered := [chain.primary];
    ordered := ordered + chain.sameFamily;
    ordered := ordered + chain.crossFamily;
    if chain.terminal.Some? {
      ordered := ordered + [chain.terminal.value];
    } else {
      assert ordered == ordered + [];
    }
    assert ordered == Traversal(chain);
  }

  /** `ordered.index(c)`: the first occurrence, `None` for the `ValueError`. */
  function FirstIndex(ordered: Candidates, c: ProviderCandidate): (i: Option<nat>)
    ensures i.None? <==> c !in ordered
    ensures i.Some? ==> i.value < |ordered| && ordered[i.value] == c && c !in ordered[..i.value]
  {
    if ordered == [] then None
    else if ordered[0] == c then Some(0)
    else
      match FirstIndex(ordered[1..], c)
      case None => None
      case Some(j) =>
        assert ordered[..j + 1] == [ordered[0]] + ordered[1..][..j];
        Some(j + 1)
  }

  function OnProviderFailure(failed: ProviderCandidate, chain: FallbackChain): OnFailureResult {
    var ordered := Traversal(chain);
    match FirstIndex(ordered, failed)
    case None => OnFailureResult(None, false, false)
    case Some(i) =>
      if i + 1 >= |ordered| then OnFailureResult(None, false, false)
      else
        var next := ordered[i + 1];
        OnFailureResult(Some(next), next.family != failed.family, next.family != failed.family)
  }

  /** The successor of a candidate that first stands at `i` is the one at `i + 1`, and both attribution
      flags say whether the two families differ. */
  lemma FailureAtFirstOccurrence(chain: FallbackChain, i: nat)
    requires i < |Traversal(chain)| && Traversal(chain)[i] !in Traversal(chain)[..i]
    ensures var (r, ordered) := (OnProviderFailure(Traversal(chain)[i], chain), Traversal(chain));
            if i + 1 == |ordered| then r == OnFailureResult(None, false, false)
            else r.nextCandidate == Some(ordered[i + 1])
                 && (r.crossFamilyTriggered <==> ordered[i + 1].family != ordered[i].family)
                 && r.cacheStateLost == r.crossFamilyTriggered
  {
    var ordered := Traversal(chain);
    FirstIndexIs(ordered, i);
  }

  /** The answer for any candidate: of one outside the chain, nothing to try and no flag; of one inside, its
      successor after the first place it stands at. */
  lemma FailureAnswers(failed: ProviderCandidate, chain: FallbackChain)
    ensures var (r, ordered) := (OnProviderFailure(failed, chain), Traversal(chain));
            && (failed !in ordered ==> r == OnFailureResult(None, false, false))
            && (forall i | 0 <= i < |ordered| && ordered[i] == failed && failed !in ordered[..i] ::
                  r.nextCandidate == (if i + 1 == |ordered| then None else Some(ordered[i + 1])))
            && (r.crossFamilyTriggered <==> r.nextCandidate.Some? && r.nextCandidate.value.family != failed.family)
            && r.cacheStateLost == r.crossFamilyTriggered
  {
    var ordered := Traversal(chain);
    forall i | 0 <= i < |ordered| && ordered[i] == failed && failed !in ordered[..i]
      ensures OnProviderFailure(failed, chain).nextCandidate
           == if i + 1 == |ordered| then None else Some(ordered[i + 1])
    {
      FailureAtFirstOccurrence(chain, i);
    }
  }

  lemma FirstIndexIs(ordered: Candidates, i: nat)
    requires i < |ordered| && ordered[i] !in ordered[..i]
    ensures FirstIndex(ordered, ordered[i]) == Some(i)
  {
    hide FirstIndex;
    var j := FirstIndex(ordered, ordered[i]).value;
    InPrefix(ordered, i);
    InPrefix(ordered, j);
  }

  lemma InPrefix(cs: Candidates, j: nat)
    requires j <= |cs|
    ensures forall k | 0 <= k < j :: cs[k] in cs[..j]
  {
    forall k | 0 <= k < j ensures cs[k] in cs[..j] { assert cs[..j][k] == cs[k]; }
  }

  // ---------------------------------------------------------------- failing over and over

  /** The candidate in use after `n` failures, each reported against the candidate then in use. */
  function AfterFailures(chain: FallbackChain, n: nat): Option<ProviderCandidate> {
    if n == 0 then Some(chain.primary)
    else
      match AfterFailures(chain, n - 1)
      case None => None
      case Some(c) => OnProviderFailure(c, chain).nextCandidate
  }

  /** How many of the first `n` failures reset the prompt cache. */
  function CacheResets(chain: FallbackChain, n: nat): nat {
    if n == 0 then 0
    else
      CacheResets(chain, n - 1)
      + match AfterFailures(chain, n - 1)
        case None => 0
        case Some(c) => if OnProviderFailure(c, chain).cacheStateLost then 1 else 0
  }

  function FamilyChanges(cs: Candidates): nat {
    if |cs| < 2 then 0
    else FamilyChanges(cs[..|cs| - 1]) + if cs[|cs| - 2].family != cs[|cs| - 1].family then 1 else 0
  }

  predicate ChangesFamilyAt(cs: Candidates, i: int) {
    0 < i < |cs| && cs[i - 1].family != cs[i].family
  }

  /** The places whose family differs from the one before, counted. */
  lemma {:induction false} FamilyChangesCounted(cs: Candidates)
    ensures FamilyChanges(cs) == |set i | 0 < i < |cs| && ChangesFamilyAt(cs, i)|
  {
    var places := set i | 0 < i < |cs| && ChangesFamilyAt(cs, i);
    if |cs| < 2 {
      assert places == {};
    } else {
      var front, n := cs[..|cs| - 1], |cs| - 1;
      FamilyChangesCounted(front);
      var earlier := set i | 0 < i < |front| && ChangesFamilyAt(front, i);
      assert forall i | 0 < i < n :: ChangesFamilyAt(front, i) <==> ChangesFamilyAt(cs, i);
      assert places == earlier + if ChangesFamilyAt(cs, n) then {n} else {};
    }
  }

  /** `j` is the first position whose candidate already stands at an earlier one, `i`. */
  predicate FirstRepeat(cs: Candidates, i: nat, j: nat) {
    i < j < |cs| && cs[i] == cs[j] && Distinct(cs[..j])
  }

  lemma DistinctPrefix(cs: Candidates, j: nat)
    requires j <= |cs| && Distinct(cs[..j])
    ensures forall a, b | 0 <= a < b < j :: cs[a] != cs[b]
  {
    forall a, b | 0 <= a < b < j ensures cs[a] != cs[b] {
      assert cs[..j][a] == cs[a] && cs[..j][b] == cs[b];
    }
  }

  lemma {:induction false} RepeatExists(cs: Candidates) returns (i: nat, j: nat)
    requires !Distinct(cs)
    ensures FirstRepeat(cs, i, j)
  {
    var front := cs[..|cs| - 1];
    if !Distinct(front) {
      i, j := RepeatExists(front);
      assert front[..j] == cs[..j];
    } else {
      j := |cs| - 1;
      var a, b :| 0 <= a < b < |cs| && cs[a] == cs[b];
      DistinctPrefix(cs, j);
      i := a;
    }
  }

  /** Where the walk stands after `n` failures: straight ahead up to the first repeat, then round and
      round from that candidate's first place. */
  function Position(i: nat, j: nat, n: nat): (p: nat)
    requires i < j
    ensures p < j
    decreases n
  {
    if n < j then n else Position(i, j, n - (j - i))
  }

  lemma {:induction false} PositionAdvances(i: nat, j: nat, n: nat)
    requires i < j
    ensures Position(i, j, n + 1) == if Position(i, j, n) + 1 == j then i else Position(i, j, n) + 1
    decreases n
  {
    if n >= j { PositionAdvances(i, j, n - (j - i)); }
  }

  lemma NotEarlier(cs: Candidates, p: nat, j: nat)
    requires p < j <= |cs| && Distinct(cs[..j])
    ensures cs[p] !in cs[..p]
  {
    DistinctPrefix(cs, j);
    assert forall k | 0 <= k < p :: cs[..p][k] == cs[k];
  }

  lemma OneMoreFailure(chain: FallbackChain, n: nat)
    ensures AfterFailures(chain, 0) == Some(Traversal(chain)[0])
    ensures AfterFailures(chain, n).None? ==> AfterFailures(chain, n + 1).None?
    ensures AfterFailures(chain, n).Some?
        ==> AfterFailures(chain, n + 1) == OnProviderFailure(AfterFailures(chain, n).value, chain).nextCandidate
  {
    hide OnProviderFailure;
    hide Traversal;
  }

  /** With a repeat in the chain the walk never ends, cycles, and never reaches what stands after it. */
  lemma {:induction false} RepeatCycles(chain: FallbackChain, i: nat, j: nat, n: nat)
    requires FirstRepeat(Traversal(chain), i, j)
    ensures AfterFailures(chain, n) == Some(Traversal(chain)[Position(i, j, n)])
  {
    hide OnProviderFailure;
    hide AfterFailures;
    hide Traversal;
    var ordered := Traversal(chain);
    if n == 0 {
      OneMoreFailure(chain, 0);
    } else {
      OneMoreFailure(chain, n - 1);
      RepeatCycles(chain, i, j, n - 1);
      var p := Position(i, j, n - 1);
      PositionAdvances(i, j, n - 1);
      NotEarlier(ordered, p, j);
      FailureAtFirstOccurrence(chain, p);
    }
  }

  /** With distinct candidates each is used once, in traversal order, and then the walk is over. */
  lemma {:induction false} DistinctVisitedInOrder(chain: FallbackChain, n: nat)
    requires Distinct(Traversal(chain))
    ensures AfterFailures(chain, n) == if n < |Traversal(chain)| then Some(Traversal(chain)[n]) else None
  {
    hide OnProviderFailure;
    hide AfterFailures;
    hide Traversal;
    hide Distinct;
    var ordered := Traversal(chain);
    if n == 0 {
      OneMoreFailure(chain, 0);
    } else {
      OneMoreFailure(chain, n - 1);
      DistinctVisitedInOrder(chain, n - 1);
      if n <= |ordered| {
        assert ordered[..|ordered|] == ordered;
        NotEarlier(ordered, n - 1, |ordered|);
        FailureAtFirstOccurrence(chain, n - 1);
      }
    }
  }

  /** The walk ends exactly for chains without a repeated candidate. */
  lemma WalkEndsIffDistinct(chain: FallbackChain)
    ensures (exists n: nat :: AfterFailures(chain, n) == None) <==> Distinct(Traversal(chain))
  {
    if Distinct(Traversal(chain)) {
      DistinctVisitedInOrder(chain, |Traversal(chain)|);
    } else {
      var i, j := RepeatExists(Traversal(chain));
      forall n: nat ensures AfterFailures(chain, n) != None { RepeatCycles(chain, i, j, n); }
    }
  }

  lemma OneMoreReset(chain: FallbackChain, n: nat)
    ensures CacheResets(chain, 0) == 0
    ensures AfterFailures(chain, n).None? ==> CacheResets(chain, n + 1) == CacheResets(chain, n)
    ensures AfterFailures(chain, n).Some? ==>
              CacheResets(chain, n + 1) == CacheResets(chain, n)
                + if OnProviderFailure(AfterFailures(chain, n).value, chain).cacheStateLost then 1 else 0
  {
    hide OnProviderFailure;
    hide AfterFailures;
    hide Traversal;
  }

  lemma OneMoreChange(cs: Candidates, n: nat)
    requires 0 < n <= |cs|
    ensures FamilyChanges(cs[..1]) == 0
    ensures n < |cs| ==>
              FamilyChanges(cs[..n + 1])
              == FamilyChanges(cs[..n]) + if cs[n - 1].family != cs[n].family then 1 else 0
    ensures cs[..|cs|] == cs
  {
    if n < |cs| { assert cs[..n + 1][..n] == cs[..n]; }
  }

  /** Over a whole walk the prompt cache is reset once for every change of family along the order. */
  lemma {:induction false} ResetsAreFamilyChanges(chain: FallbackChain, n: nat)
    requires Distinct(Traversal(chain))
    ensures var ordered := Traversal(chain);
            CacheResets(chain, n) == FamilyChanges(if n < |ordered| then ordered[..n + 1] else ordered)
  {
    hide *;
    var ordered := Traversal(chain);
    TraversalNotEmpty(chain);
    if n == 0 {
      OneMoreReset(chain, 0);
      OneMoreChange(ordered, 1);
    } else {
      ResetsAreFamilyChanges(chain, n - 1);
      DistinctVisitedInOrder(chain, n - 1);
      OneMoreReset(chain, n - 1);
      if n <= |ordered| {
        OneMoreChange(ordered, n);
        NotEarlier(ordered, n - 1, |ordered|);
        FailureAtFirstOccurrence(chain, n - 1);
      }
    }
  }

  lemma TraversalNotEmpty(chain: FallbackChain)
    ensures |Traversal(chain)| > 0
  {
  }

  /** A primary listed again as a same-family fallback is tried for ever: the cross-family and terminal
      candidates are never used. */
  lemma RepeatedPrimaryNeverLeaves(chain: FallbackChain, n: nat)
    requires chain.sameFamily != [] && chain.sameFamily[0] == chain.primary
    ensures AfterFailures(chain, n) == Some(chain.primary)
  {
    RepeatCycles(chain, 0, 1, n);
  }
}
