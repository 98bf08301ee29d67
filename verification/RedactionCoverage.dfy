/** When a set of markers can never survive redaction, in any company: exactly when every marker contains one
    that does not overlap the sentinel.  Taken alone a set can do without. */
module RedactionCoverage {
  import opened MarkerReplacement
  import opened Substrings

  /** Whatever the text, whatever set of markers these are redacted with, and in whatever order. */
  ghost predicate SetNeverSurvives(markers: set<string>) {
    forall t: string, order: seq<string>, company: set<string> | Enumerates(order, company) && markers <= company ::
      !ContainsMarker(RedactInOrder(t, order), markers)
  }

  // ---------------------------------------------------------------- a smallest marker

  /** Some marker within `m` holds no other marker. */
  lemma SmallestWithin(markers: set<string>, m: string) returns (n: string)
    requires m in markers && m != ""
    ensures n in markers && n != "" && Contains(m, n)
    ensures forall k | k in markers && k != "" && k != n :: !Contains(n, k)
    decreases |m|
  {
    hide Contains;
    if k :| k in markers && k != "" && k != m && Contains(m, k) {
      OccursWithin(m, k);
      n := SmallestWithin(markers, k);
      ContainsTransitive(m, k, n);
    } else {
      n := m;
      assert OccursAt(m, 0, m);
      ContainsIn(m, 0, m);
    }
  }

  // ---------------------------------------------------------------- a marker laid over the sentinel

  lemma ThreeParts(p: string, s: string, q: string, j: nat)
    requires j < |p| + |s| + |q|
    ensures (p + s + q)[j]
            == if j < |p| then p[j] else if j < |p| + |s| then s[j - |p|] else q[j - |p| - |s|]
  {
  }

  /** Position `k` of a text `m` laid over `s` at `d`, with `m[a..b]` on `s` and the rest around it. */
  lemma LaidAt(s: string, m: string, d: int, a: nat, b: nat, k: nat)
    requires a <= b <= |m| && 0 <= a + d && b + d <= |s| && k < |m|
    requires (a > 0 ==> a + d == 0) && (b < |m| ==> b + d == |s|)
    requires a <= k < b ==> m[k] == s[k + d]
    ensures a + d + k < |m[..a] + s + m[b..]| && (m[..a] + s + m[b..])[a + d + k] == m[k]
  {
    var p, q := m[..a], m[b..];
    ThreeParts(p, s, q, a + d + k);
    if k < a {
      assert p[k] == m[k];
    } else if k >= b {
      assert q[k - b] == m[k];
    }
  }

  lemma AgreesThere(m: string, d: int, k: nat)
    requires AgreesAt(m, d) && k < |m| && 0 <= k + d < |REDACTION_SENTINEL|
    ensures m[k] == REDACTION_SENTINEL[k + d]
  {
  }

  lemma LaidOver(m: string, d: int, a: nat, b: nat)
    requires AgreesAt(m, d) && a <= b <= |m| && 0 <= a + d && b + d <= |REDACTION_SENTINEL|
    requires (a > 0 ==> a + d == 0) && (b < |m| ==> b + d == |REDACTION_SENTINEL|)
    ensures OccursAt(m[..a] + REDACTION_SENTINEL + m[b..], a + d, m)
  {
    hide AgreesAt;
    hide REDACTION_SENTINEL;
    var s := REDACTION_SENTINEL;
    var u, i := m[..a] + s + m[b..], a + d;
    forall k | 0 <= k < |m| ensures u[i..i + |m|][k] == m[k] {
      if a <= k < b { AgreesThere(m, d, k); }
      LaidAt(s, m, d, a, b, k);
    }
    assert u[i..i + |m|] == m;
  }

  lemma OccursWhole(t: string, i: nat, m: string)
    requires OccursAt(t, i, m) && |t| == |m|
    ensures t == m
  {
    assert t[0..|t|] == t;
  }

  /** What of `m` stands before and after the sentinel it is laid over. */
  lemma AroundSentinel(m: string) returns (p: string, q: string)
    requires m != "" && OverlapsSentinel(m)
    ensures |p| + |q| < |m| && p == m[..|p|] && q == m[|m| - |q|..] && m[|p|] in REDACTION_SENTINEL
    ensures p != "" && q != "" ==> m == p + REDACTION_SENTINEL + q
    ensures Contains(p + REDACTION_SENTINEL + q, m)
  {
    var d :| -|m| < d < |REDACTION_SENTINEL| && AgreesAt(m, d);
    assert |REDACTION_SENTINEL| > 0;
    hide *;
    var a := if d >= 0 then 0 else -d;
    var b := if d + |m| > |REDACTION_SENTINEL| then |REDACTION_SENTINEL| - d else |m|;
    p, q := m[..a], m[b..];
    AgreesThere(m, d, a);
    LaidOver(m, d, a, b);
    ContainsIn(p + REDACTION_SENTINEL + q, a + d, m);
    if p != "" && q != "" { OccursWhole(p + REDACTION_SENTINEL + q, a + d, m); }
  }

  // ---------------------------------------------------------------- a filler where the sentinel will stand

  /** A text that shares no character with the sentinel and cannot overlap itself. */
  function Filler(k: nat): (h: string)
    ensures |h| == k + 1 && h[0] == 'x' && forall i | 0 < i <= k :: h[i] == 'z'
  {
    ['x'] + seq(k, i => 'z')
  }

  lemma FillerIsForeign(k: nat, c: char)
    requires c in Filler(k)
    ensures c !in REDACTION_SENTINEL
  {
  }

  /** Redacting a filler that is longer than what stands around it. */
  lemma FillerIsReplaced(p: string, k: nat, q: string)
    requires |p| <= k && |q| <= k
    ensures Replace(p + (Filler(k) + q), Filler(k)) == p + (REDACTION_SENTINEL + q)
  {
    hide Replace;
    var h := Filler(k);
    forall i | 0 <= i < |p| ensures !(h <= p[i..] + (h + q)) {
      var w := p[i..] + (h + q);
      assert w[|p| - i] == h[0];
      assert h[|p| - i] == 'z';
    }
    ReplaceSkips(p, h + q, h);
    ReplaceShort(q, h);
  }

  lemma EndsBehind(p: string, s: string, n: string)
    requires n != "" && Contains(p + s, n)
    ensures Contains(p, n) || n[|n| - 1] in s
  {
    var i :| 0 <= i <= |p + s| && OccursAt(p + s, i, n);
    var last := i + |n| - 1;
    assert n[|n| - 1] == (p + s)[i..i + |n|][|n| - 1] == (p + s)[last];
    if last < |p| {
      assert p[i..i + |n|] == (p + s)[i..i + |n|];
      ContainsIn(p, i, n);
    } else {
      assert (p + s)[last] == s[last - |p|];
    }
  }

  lemma StartsBefore(s: string, q: string, n: string)
    requires n != "" && Contains(s + q, n)
    ensures Contains(q, n) || n[0] in s
  {
    var i :| 0 <= i <= |s + q| && OccursAt(s + q, i, n);
    assert n[0] == (s + q)[i..i + |n|][0] == (s + q)[i];
    if i >= |s| {
      assert q[i - |s|..i - |s| + |n|] == (s + q)[i..i + |n|];
      ContainsIn(q, i - |s|, n);
    }
  }

  lemma PartContained(m: string, a: nat, b: nat, n: string)
    requires a <= b <= |m| && Contains(m[a..b], n)
    ensures Contains(m, n)
  {
    assert OccursAt(m, a, m[a..b]);
    ContainsIn(m, a, m[a..b]);
    ContainsTransitive(m, m[a..b], n);
  }

  /** The marker itself does not stand in its surroundings around a long filler. */
  lemma NotAroundFiller(m: string, p: string, q: string)
    requires |p| + |q| < |m| && p == m[..|p|] && m[|p|] in REDACTION_SENTINEL
    ensures !Contains(p + (Filler(|m|) + q), m)
  {
    var h := Filler(|m|);
    var t := p + (h + q);
    if Contains(t, m) {
      var i :| 0 <= i <= |t| && OccursAt(t, i, m);
      assert m[|p|] == t[i..i + |m|][|p|] == t[i + |p|];
      assert t[i + |p|] == h[i];
      FillerIsForeign(|m|, h[i]);
      assert false;
    }
  }

  /** No other marker stands both around the filler and around the sentinel. */
  lemma NotInBoth(m: string, p: string, q: string, n: string)
    requires |p| + |q| < |m| && p == m[..|p|] && q == m[|m| - |q|..]
    requires p != "" && q != "" ==> m == p + REDACTION_SENTINEL + q
    requires n != "" && !Contains(m, n)
    ensures !Contains(p + (Filler(|m|) + q), n) || !Contains(p + (REDACTION_SENTINEL + q), n)
  {
    hide Contains;
    hide Filler;
    hide REDACTION_SENTINEL;
    var h, s := Filler(|m|), REDACTION_SENTINEL;
    assert p + (s + q) == p + s + q;
    if Contains(p + (h + q), n) && Contains(p + (s + q), n) {
      if Contains(p, n) { PartContained(m, 0, |p|, n); }
      assert q == m[|m| - |q|..|m|];
      if Contains(q, n) { PartContained(m, |m| - |q|, |m|, n); }
      if p == "" {
        assert p + (h + q) == h + q && p + (s + q) == s + q;
        StartsBefore(h, q, n);
        StartsBefore(s, q, n);
        FillerIsForeign(|m|, n[0]);
      } else if q == "" {
        assert h + q == h && s + q == s;
        EndsBehind(p, h, n);
        EndsBehind(p, s, n);
        FillerIsForeign(|m|, n[|n| - 1]);
      }
    }
  }

  // ---------------------------------------------------------------- the exact condition

  lemma EnumerationsJoin(a: seq<string>, b: seq<string>, xs: set<string>, ys: set<string>)
    requires Enumerates(a, xs) && Enumerates(b, ys) && xs !! ys
    ensures Enumerates(a + b, xs + ys)
  {
    var c := a + b;
    forall i, j | 0 <= i < j < |c| ensures c[i] != c[j] {
      if i < |a| <= j {
        assert a[i] in a && b[j - |a|] in b;
      }
    }
    assert forall m :: m in c <==> m in a || m in b;
  }

  lemma OneListed(m: string)
    ensures Enumerates([m], {m})
  {
  }

  lemma Listed(markers: set<string>) returns (xs: seq<string>)
    ensures Enumerates(xs, markers)
  {
    if markers == {} {
      xs := [];
    } else {
      hide Enumerates;
      var m :| m in markers;
      var rest := Listed(markers - {m});
      OneListed(m);
      EnumerationsJoin([m], rest, {m}, markers - {m});
      assert {m} + (markers - {m}) == markers;
      xs := [m] + rest;
    }
  }

  lemma InEnumeration(order: seq<string>, markers: set<string>, m: string)
    requires Enumerates(order, markers)
    ensures m in order <==> m in markers
  {
  }

  /** An uncovered marker survives some redaction by more markers: first those that the text does not hold,
      then the filler, then the rest, which the text then no longer holds. */
  lemma UncoveredSurvives(markers: set<string>, m: string)
    returns (t: string, order: seq<string>, company: set<string>)
    requires m in markers && m != "" && !CoveredBy(m, markers)
    ensures Enumerates(order, company) && markers <= company && ContainsMarker(RedactInOrder(t, order), markers)
  {
    hide *;
    var n := SmallestWithin(markers, m);
    UncoveredOverlaps(m, n, markers);
    var p, q := AroundSentinel(n);
    var h := Filler(|n|);
    t := p + (h + q);
    var u := p + (REDACTION_SENTINEL + q);
    assert u == p + REDACTION_SENTINEL + q;
    HoldsFiller(p, h, q);
    var absent := set k | k in markers && (k == "" || !Contains(t, k));
    var rest := markers - absent - {h};
    var front := Listed(absent);
    var back := Listed(rest);
    order := front + ([h] + back);
    company := absent + ({h} + rest);
    OneListed(h);
    EnumerationsJoin([h], back, {h}, rest);
    EnumerationsJoin(front, [h] + back, absent, {h} + rest);
    NotAroundFiller(n, p, q);
    forall k | k in front && k != "" ensures !Contains(t, k) {
      InEnumeration(front, absent, k);
    }
    MarkerFreeUnchanged(t, front);
    FillerIsReplaced(p, |n|, q);
    forall k | k in back && k != "" ensures !Contains(u, k) {
      InEnumeration(back, rest, k);
      NotInBoth(n, p, q, k);
    }
    MarkerFreeUnchanged(u, back);
    RedactConcat(t, front, [h] + back);
    RedactConcat(t, [h], back);
    RedactSnoc(t, [], h);
    NoneRedacted(t);
    assert [] + [h] == [h];
    MarkerFound(u, n, markers);
  }

  lemma HoldsFiller(p: string, h: string, q: string)
    requires h != ""
    ensures Contains(p + (h + q), h)
  {
    PartsOf(p, h, q);
    assert p + h + q == p + (h + q);
    ContainsIn(p + (h + q), |p|, h);
  }

  lemma NoneRedacted(t: string)
    ensures RedactInOrder(t, []) == t
  {
  }

  lemma UncoveredOverlaps(m: string, n: string, markers: set<string>)
    requires !CoveredBy(m, markers) && n in markers && n != "" && Contains(m, n)
    ensures OverlapsSentinel(n)
  {
  }

  /** A set of markers is gone after every redaction that includes it if and only if each of its markers
      contains one of them that does not overlap the sentinel. */
  lemma SetNeverSurvivesIff(markers: set<string>)
    ensures SetNeverSurvives(markers) <==> AllCovered(markers)
  {
    hide RedactInOrder;
    hide ContainsMarker;
    hide CoveredBy;
    if AllCovered(markers) {
      forall t: string, order: seq<string>, company: set<string> | Enumerates(order, company) && markers <= company
        ensures !ContainsMarker(RedactInOrder(t, order), markers)
      {
        RedactedTextIsMarkerFree(t, order, markers);
      }
    } else {
      var m :| m in markers && m != "" && !CoveredBy(m, markers);
      var t, order, company := UncoveredSurvives(markers, m);
      assert !SetNeverSurvives(markers);
    }
  }
}
