/** Replacing markers by the sentinel, one marker after the other: which markers can never survive it, for
    every text, whatever the other markers and their order. */
module MarkerReplacement {
  import opened Substrings

  const REDACTION_SENTINEL := "_REDACTED_"

  // ---------------------------------------------------------------- str operations

  /** `t.replace(m, sentinel)`: leftmost occurrences first, never overlapping. */
  function Replace(t: string, m: string): string
    requires m != ""
    decreases |t|
  {
    if |t| < |m| then t
    else if m <= t then REDACTION_SENTINEL + Replace(t[|m|..], m)
    else [t[0]] + Replace(t[1..], m)
  }

  /** The stretches of text between the occurrences `Replace` acts on. */
  function Pieces(t: string, m: string): (ps: seq<string>)
    requires m != ""
    ensures ps != []
    decreases |t|
  {
    if |t| < |m| then [t]
    else if m <= t then [""] + Pieces(t[|m|..], m)
    else
      var rest := Pieces(t[1..], m);
      [[t[0]] + rest[0]] + rest[1..]
  }

  function JoinWith(separator: string, ps: seq<string>): string
    requires ps != []
  {
    if |ps| == 1 then ps[0] else ps[0] + separator + JoinWith(separator, ps[1..])
  }

  // ---------------------------------------------------------------- redaction

  /** The marker loop, for one iteration order of the marker set. */
  function RedactInOrder(t: string, order: seq<string>): string
    decreases |order|
  {
    if order == [] then t
    else RedactInOrder(if order[0] == "" then t else Replace(t, order[0]), order[1..])
  }

  ghost predicate Enumerates(order: seq<string>, markers: set<string>) {
    (forall m :: m in order <==> m in markers) && forall i, j | 0 <= i < j < |order| :: order[i] != order[j]
  }

  lemma {:induction false} RedactConcat(t: string, front: seq<string>, back: seq<string>)
    ensures RedactInOrder(t, front + back) == RedactInOrder(RedactInOrder(t, front), back)
    decreases |front|
  {
    if front == [] {
      assert front + back == back;
    } else {
      assert (front + back)[1..] == front[1..] + back;
      RedactConcat(if front[0] == "" then t else Replace(t, front[0]), front[1..], back);
    }
  }

  lemma RedactSnoc(t: string, order: seq<string>, m: string)
    ensures RedactInOrder(t, order + [m])
            == if m == "" then RedactInOrder(t, order) else Replace(RedactInOrder(t, order), m)
  {
    RedactConcat(t, order, [m]);
    assert [m][1..] == [];
  }

  predicate ContainsMarker(text: string, markers: set<string>) {
    exists m | m in markers :: m != "" && Contains(text, m)
  }

  lemma MarkerFound(t: string, m: string, markers: set<string>)
    requires m in markers && m != "" && Contains(t, m)
    ensures ContainsMarker(t, markers)
  {
  }

  // ---------------------------------------------------------------- replacing is splitting and joining

  lemma UnfoldReplace(t: string, m: string)
    requires m != "" && |t| >= |m|
    ensures m <= t ==> Replace(t, m) == REDACTION_SENTINEL + Replace(t[|m|..], m)
    ensures !(m <= t) ==> Replace(t, m) == [t[0]] + Replace(t[1..], m)
  {
  }

  lemma ReplaceOfShort(t: string, m: string)
    requires m != "" && |t| < |m|
    ensures Replace(t, m) == t
  {
  }

  lemma Shift(a: string, t: string, i: nat, m: string)
    ensures OccursAt(a + t, |a| + i, m) <==> OccursAt(t, i, m)
  {
    if |a| + i + |m| <= |a + t| {
      assert (a + t)[|a| + i..|a| + i + |m|] == t[i..i + |m|];
    }
  }

  lemma ContainsLater(a: string, t: string, m: string)
    requires Contains(t, m)
    ensures Contains(a + t, m)
  {
    var i :| 0 <= i <= |t| && OccursAt(t, i, m);
    Shift(a, t, i, m);
    ContainsIn(a + t, |a| + i, m);
  }

  lemma OccurrencePrefix(t: string, m: string)
    ensures OccursAt(t, 0, m) <==> m <= t
  {
  }

  /** Occurring in `[c] + t` is being a prefix of it or occurring in `t`. */
  lemma ContainsCons(c: char, t: string, m: string)
    ensures Contains([c] + t, m) <==> m <= [c] + t || Contains(t, m)
  {
    OccurrencePrefix([c] + t, m);
    if Contains([c] + t, m) {
      var i :| 0 <= i <= |t| + 1 && OccursAt([c] + t, i, m);
      if i > 0 { Shift([c], t, i - 1, m); }
    } else if Contains(t, m) {
      ContainsLater([c], t, m);
    }
  }

  /** Replacement keeps everything outside the occurrences: the text and its redaction are the same
      pieces, none containing the marker, joined with the marker and with the sentinel. */
  lemma {:induction false} ReplaceIsSplitAndJoin(t: string, m: string)
    requires m != ""
    ensures JoinWith(m, Pieces(t, m)) == t
    ensures JoinWith(REDACTION_SENTINEL, Pieces(t, m)) == Replace(t, m)
    ensures forall i | 0 <= i < |Pieces(t, m)| :: !Contains(Pieces(t, m)[i], m)
    ensures Pieces(t, m)[0] <= t
    decreases |t|
  {
    hide Replace;
    hide Contains;
    hide JoinWith;
    if |t| < |m| {
      NoPieces(t, m);
    } else if m <= t {
      ReplaceIsSplitAndJoin(t[|m|..], m);
      UnfoldReplace(t, m);
      JoinEmptyFirst(m, Pieces(t[|m|..], m));
      JoinEmptyFirst(REDACTION_SENTINEL, Pieces(t[|m|..], m));
      EmptyContainsNothing(m);
      assert t == m + t[|m|..];
    } else {
      var rest := Pieces(t[1..], m);
      ReplaceIsSplitAndJoin(t[1..], m);
      UnfoldReplace(t, m);
      PrependJoin(t[0], m, rest);
      PrependJoin(t[0], REDACTION_SENTINEL, rest);
      assert t == [t[0]] + t[1..];
      ContainsCons(t[0], rest[0], m);
    }
  }

  lemma NoPieces(t: string, m: string)
    requires m != "" && |t| < |m|
    ensures JoinWith(m, [t]) == t && JoinWith(REDACTION_SENTINEL, [t]) == t == Replace(t, m) && !Contains(t, m)
  {
  }

  lemma EmptyContainsNothing(m: string)
    requires m != ""
    ensures !Contains("", m)
  {
  }

  lemma JoinEmptyFirst(separator: string, ps: seq<string>)
    requires ps != []
    ensures JoinWith(separator, [""] + ps) == separator + JoinWith(separator, ps)
  {
    assert ([""] + ps)[1..] == ps;
  }

  lemma PrependJoin(c: char, separator: string, ps: seq<string>)
    requires ps != []
    ensures JoinWith(separator, [[c] + ps[0]] + ps[1..]) == [c] + JoinWith(separator, ps)
  {
    if |ps| > 1 {
      assert ([[c] + ps[0]] + ps[1..])[1..] == ps[1..];
    }
  }

  // ---------------------------------------------------------------- overlap with the sentinel

  /** Laid over the sentinel at offset `d`, the marker agrees with it wherever both have a character. */
  predicate AgreesAt(m: string, d: int) {
    forall k | 0 <= k < |m| && 0 <= k + d < |REDACTION_SENTINEL| :: m[k] == REDACTION_SENTINEL[k + d]
  }

  /** Some placement sharing at least one position agrees. */
  predicate OverlapsSentinel(m: string) {
    exists d | -|m| < d < |REDACTION_SENTINEL| :: AgreesAt(m, d)
  }

  lemma Overlap(m: string, d: int)
    requires 0 - |m| < d < |REDACTION_SENTINEL|
    requires forall k | 0 <= k < |m| && 0 <= k + d < |REDACTION_SENTINEL| :: m[k] == REDACTION_SENTINEL[k + d]
    ensures OverlapsSentinel(m)
  {
    assert AgreesAt(m, d);
  }

  lemma {:induction false} TailStaysPrefix(u: string, m: string, other: string, j: nat)
    requires m != "" && !OverlapsSentinel(other) && j <= |other| && other[j..] <= Replace(u, m)
    ensures other[j..] <= u
    decreases |u|
  {
    var p := other[j..];
    if p != "" && |u| >= |m| {
      if m <= u {
        var r := REDACTION_SENTINEL + Replace(u[|m|..], m);
        forall k | 0 <= k < |other| && 0 <= k - j < |REDACTION_SENTINEL|
          ensures other[k] == REDACTION_SENTINEL[k - j]
        {
          assert other[k] == p[k - j] == r[k - j];
        }
        Overlap(other, 0 - j);
        assert false;
      } else {
        var r := [u[0]] + Replace(u[1..], m);
        assert p[0] == r[0] == u[0];
        assert other[j + 1..] == p[1..] <= r[1..] == Replace(u[1..], m);
        TailStaysPrefix(u[1..], m, other, j + 1);
        assert p == [p[0]] + other[j + 1..] && u == [u[0]] + u[1..];
      }
    }
  }

  /** Where a marker that does not overlap the sentinel occurs after a replacement, it occurred before;
      and the replaced marker itself occurs nowhere. */
  lemma {:induction false} OccurrenceWasThere(t: string, m: string, other: string, i: nat)
    requires m != "" && other != "" && !OverlapsSentinel(other) && OccursAt(Replace(t, m), i, other)
    ensures other != m && Contains(t, other)
    decreases |t|
  {
    hide Replace;
    hide Contains;
    hide OccursAt;
    if |t| < |m| {
      ReplaceTooShort(t, m);
      ContainsIn(t, i, other);
    } else {
      UnfoldReplace(t, m);
      if m <= t {
        var tail := t[|m|..];
        if i < |REDACTION_SENTINEL| {
          OverlapsInside(Replace(tail, m), i, other);
        } else {
          Shift(REDACTION_SENTINEL, Replace(tail, m), i - |REDACTION_SENTINEL|, other);
          OccurrenceWasThere(tail, m, other, i - |REDACTION_SENTINEL|);
          ContainsLater(m, tail, other);
          assert t == m + tail;
        }
      } else {
        var tail := t[1..];
        assert t == [t[0]] + tail;
        if i > 0 {
          Shift([t[0]], Replace(tail, m), i - 1, other);
          OccurrenceWasThere(tail, m, other, i - 1);
          ContainsLater([t[0]], tail, other);
        } else {
          OccurrencePrefix([t[0]] + Replace(tail, m), other);
          assert other == [t[0]] + other[1..];
          TailStaysPrefix(tail, m, other, 1);
          assert other <= t;
          OccurrencePrefix(t, other);
          ContainsIn(t, 0, other);
        }
      }
    }
  }

  lemma ReplaceTooShort(t: string, m: string)
    requires m != "" && |t| < |m|
    ensures Replace(t, m) == t && !Contains(t, m)
    ensures forall i: nat :: !OccursAt(t, i, m)
  {
  }

  /** An occurrence that starts inside a sentinel shows that the marker overlaps it. */
  lemma OverlapsInside(tail: string, i: nat, m: string)
    requires i < |REDACTION_SENTINEL| && m != "" && OccursAt(REDACTION_SENTINEL + tail, i, m)
    ensures OverlapsSentinel(m)
  {
    var r := REDACTION_SENTINEL + tail;
    forall k | 0 <= k < |m| && 0 <= k + i < |REDACTION_SENTINEL| ensures m[k] == REDACTION_SENTINEL[k + i] {
      assert m[k] == r[i..i + |m|][k];
    }
    assert AgreesAt(m, i);
  }

  lemma {:induction false} AbsentStaysAbsent(t: string, order: seq<string>, m: string)
    requires m != "" && !OverlapsSentinel(m) && !Contains(t, m)
    ensures !Contains(RedactInOrder(t, order), m)
    decreases |order|
  {
    if order != [] {
      var t' := if order[0] == "" then t else Replace(t, order[0]);
      if Contains(t', m) {
        var i :| 0 <= i <= |t'| && OccursAt(t', i, m);
        if order[0] != "" { OccurrenceWasThere(t, order[0], m, i); }
      }
      AbsentStaysAbsent(t', order[1..], m);
    }
  }

  /** A marker that does not overlap the sentinel is gone after redaction, whatever the other markers
      and wherever it comes in the order. */
  lemma {:induction false} NonOverlappingNeverSurvives(t: string, order: seq<string>, m: string)
    requires m != "" && m in order && !OverlapsSentinel(m)
    ensures !Contains(RedactInOrder(t, order), m)
    decreases |order|
  {
    var t' := if order[0] == "" then t else Replace(t, order[0]);
    if order[0] == m {
      if Contains(t', m) {
        var i :| 0 <= i <= |t'| && OccursAt(t', i, m);
        OccurrenceWasThere(t, m, m, i);
      }
      AbsentStaysAbsent(t', order[1..], m);
    } else {
      NonOverlappingNeverSurvives(t', order[1..], m);
    }
  }

  // ---------------------------------------------------------------- and overlapping ones can survive

  lemma ReplaceShort(t: string, m: string)
    requires m != "" && |t| < |m|
    ensures Replace(m + t, m) == REDACTION_SENTINEL + t
  {
    assert (m + t)[|m|..] == t;
  }

  lemma {:induction false} ReplaceSkips(p: string, u: string, m: string)
    requires m != "" && |u| >= |m| && forall i | 0 <= i < |p| :: !(m <= p[i..] + u)
    ensures Replace(p + u, m) == p + Replace(u, m)
    decreases |p|
  {
    hide Replace;
    if p == "" {
      assert p + u == u && p + Replace(u, m) == Replace(u, m);
    } else {
      var q := p[1..];
      assert p + u == [p[0]] + (q + u) && (p + u)[1..] == q + u && p[0..] == p;
      forall i | 0 <= i < |q| ensures !(m <= q[i..] + u) {
        assert q[i..] == p[i + 1..];
      }
      UnfoldReplace(p + u, m);
      ReplaceSkips(q, u, m);
      assert [p[0]] + (q + Replace(u, m)) == p + Replace(u, m);
    }
  }

  /** A text that agrees with `s` from `d` on stands there once the rest of it follows `s`. */
  lemma CompletedOnTheRight(s: string, m: string, d: nat, q: string)
    requires d < |s| && forall k | 0 <= k < |m| && 0 <= k + d < |s| :: m[k] == s[k + d]
    requires q == if |s| - d < |m| then m[|s| - d..] else ""
    ensures OccursAt(s + q, d, m)
  {
    var r := s + q;
    forall k | 0 <= k < |m| ensures k + d < |r| && r[k + d] == m[k] {
      if k + d >= |s| { assert r[k + d] == q[k + d - |s|]; }
    }
    assert r[d..d + |m|] == m;
  }

  lemma SurvivesToTheRight(m: string, d: nat) returns (t: string)
    requires m != "" && d < |REDACTION_SENTINEL| && AgreesAt(m, d)
    ensures Contains(Replace(t, m), m)
  {
    var n := |REDACTION_SENTINEL| - d;
    var q := if n < |m| then m[n..] else "";
    t := m + q;
    CompletedOnTheRight(REDACTION_SENTINEL, m, d, q);
    hide *;
    ReplaceShort(q, m);
    ContainsIn(REDACTION_SENTINEL + q, d, m);
  }

  lemma SurvivesToTheLeft(m: string, d: int) returns (t: string)
    requires -|m| < d < 0 && AgreesAt(m, d) && m[0] != '_'
    ensures Contains(Replace(t, m), m)
  {
    hide Replace;
    hide OccursAt;
    hide Contains;
    var e := -d;
    var p := m[..e];
    var q := if e + |REDACTION_SENTINEL| < |m| then m[e + |REDACTION_SENTINEL|..] else "";
    var u := m + q;
    t := p + u;
    assert m[e] == REDACTION_SENTINEL[e + d] == '_';
    forall i | 0 <= i < |p| ensures !(m <= p[i..] + u) {
      NoEarlierOccurrence(m, e, q, i);
    }
    ReplaceSkips(p, u, m);
    ReplaceShort(q, m);
    var r := p + (REDACTION_SENTINEL + q);
    forall k | 0 <= k < |m| ensures r[k] == m[k] {
      if e <= k < e + |REDACTION_SENTINEL| {
        assert m[k] == REDACTION_SENTINEL[k + d];
      }
    }
    assert m <= r;
    OccurrencePrefix(r, m);
    ContainsIn(r, 0, m);
  }

  lemma NoEarlierOccurrence(m: string, e: nat, q: string, i: nat)
    requires i < e < |m| && m[e] != m[0]
    ensures !(m <= m[..e][i..] + (m + q))
  {
    var t := m[..e][i..] + (m + q);
    assert t[0] == m[i] && t[e] == (m + q)[i] == m[i];
  }

  lemma OverlappingCanSurvive(m: string) returns (t: string)
    requires m != "" && OverlapsSentinel(m)
    ensures Contains(RedactInOrder(t, [m]), m)
  {
    var d :| -|m| < d < |REDACTION_SENTINEL| && AgreesAt(m, d);
    if d >= 0 {
      t := SurvivesToTheRight(m, d);
    } else if m[0] == '_' {
      assert AgreesAt(m, |REDACTION_SENTINEL| - 1);
      t := SurvivesToTheRight(m, |REDACTION_SENTINEL| - 1);
    } else {
      t := SurvivesToTheLeft(m, d);
    }
    assert RedactInOrder(t, [m]) == Replace(t, m);
  }

  /** Whatever the text, the other markers and the order, `m` is gone afterwards. */
  ghost predicate NeverSurvives(m: string) {
    forall t: string, order: seq<string> :: m in order ==> !Contains(RedactInOrder(t, order), m)
  }

  /** Exactly the markers that overlap the sentinel can survive redaction. */
  lemma NeverSurvivesIff(m: string)
    requires m != ""
    ensures NeverSurvives(m) <==> !OverlapsSentinel(m)
  {
    if OverlapsSentinel(m) {
      var t := OverlappingCanSurvive(m);
      hide RedactInOrder;
      hide Contains;
      var order := [m];
      assert m in order && Contains(RedactInOrder(t, order), m);
    } else {
      forall t: string, order: seq<string> | m in order ensures !Contains(RedactInOrder(t, order), m) {
        NonOverlappingNeverSurvives(t, order, m);
      }
    }
  }

  /** Sharing no character with the sentinel is enough. */
  lemma DisjointCharactersDoNotOverlap(m: string)
    requires m != "" && forall k | 0 <= k < |m| :: m[k] !in REDACTION_SENTINEL
    ensures !OverlapsSentinel(m)
  {
    forall d | -|m| < d < |REDACTION_SENTINEL| ensures !AgreesAt(m, d) {
      var k := if d >= 0 then 0 else -d;
      assert m[k] != REDACTION_SENTINEL[k + d];
    }
  }

  /** A marker that does survive: redacting "xx_" of the marker "x_" leaves "x_" behind. */
  lemma MarkerSharingUnderscoreSurvives()
    ensures Contains(RedactInOrder("xx_", ["x_"]), "x_")
  {
    assert "xx_"[1] != "x_"[1] && "xx_"[1..] == "x_" && "x_"[2..] == "";
    assert Replace("x_", "x_") == REDACTION_SENTINEL + "";
    assert Replace("xx_", "x_") == "x" + (REDACTION_SENTINEL + "");
    var r := "x" + (REDACTION_SENTINEL + "");
    assert OccursAt(r, 0, "x_");
    assert RedactInOrder("xx_", ["x_"]) == r;
  }

  // ---------------------------------------------------------------- text and sets that are left clean

  lemma {:induction false} ReplaceAbsent(t: string, m: string)
    requires m != "" && !Contains(t, m)
    ensures Replace(t, m) == t
    decreases |t|
  {
    if |t| >= |m| {
      assert t == [t[0]] + t[1..];
      ContainsCons(t[0], t[1..], m);
      ReplaceAbsent(t[1..], m);
    }
  }

  lemma OccursIsPrefix(t: string, i: nat, m: string)
    requires i <= |t|
    ensures OccursAt(t, i, m) <==> m <= t[i..]
  {
    if i + |m| <= |t| { assert t[i..i + |m|] == t[i..][..|m|]; }
  }

  /** The first occurrence becomes the sentinel, and replacement goes on after it. */
  lemma FirstOccurrenceReplaced(t: string, m: string, i: nat)
    requires m != "" && OccursAt(t, i, m) && forall j | 0 <= j < i :: !OccursAt(t, j, m)
    ensures Replace(t, m) == t[..i] + "_REDACTED_" + Replace(t[i + |m|..], m)
  {
    hide Replace;
    var p, u := t[..i], t[i..];
    OccursIsPrefix(t, i, m);
    forall j | 0 <= j < |p| ensures !(m <= p[j..] + u) {
      OccursIsPrefix(t, j, m);
      assert p[j..] + u == t[j..];
    }
    ReplaceSkips(p, u, m);
    UnfoldReplace(u, m);
    hide OccursAt;
    assert p + u == t && u[|m|..] == t[i + |m|..];
    assert p + ("_REDACTED_" + Replace(u[|m|..], m)) == p + "_REDACTED_" + Replace(u[|m|..], m);
  }

  /** Text without markers is left alone, in every order. */
  lemma {:induction false} MarkerFreeUnchanged(t: string, order: seq<string>)
    requires forall m | m in order && m != "" :: !Contains(t, m)
    ensures RedactInOrder(t, order) == t
    decreases |order|
  {
    if order != [] {
      if order[0] != "" { ReplaceAbsent(t, order[0]); }
      MarkerFreeUnchanged(t, order[1..]);
    }
  }

  /** Every non-empty marker contains some non-empty marker of the set that does not overlap the
      sentinel: itself, or one whose disappearance takes it along. */
  ghost predicate AllCovered(markers: set<string>) {
    forall m | m in markers && m != "" :: CoveredBy(m, markers)
  }

  ghost predicate CoveredBy(m: string, markers: set<string>) {
    exists n | n in markers :: n != "" && !OverlapsSentinel(n) && Contains(m, n)
  }

  lemma RedactedTextIsMarkerFree(t: string, order: seq<string>, markers: set<string>)
    requires (forall m | m in markers :: m in order) && AllCovered(markers)
    ensures !ContainsMarker(RedactInOrder(t, order), markers)
  {
    hide OverlapsSentinel;
    hide RedactInOrder;
    hide Contains;
    var r := RedactInOrder(t, order);
    forall m | m in markers && m != "" ensures !Contains(r, m) {
      assert CoveredBy(m, markers);
      var n :| n in markers && n != "" && !OverlapsSentinel(n) && Contains(m, n);
      NonOverlappingNeverSurvives(t, order, n);
      if Contains(r, m) { ContainsTransitive(r, m, n); }
    }
  }

  /** The marker "x_" overlaps the sentinel and yet never survives beside "x". */
  lemma CoveredThoughOverlapping()
    ensures OverlapsSentinel("x_") && AllCovered({"x", "x_"})
  {
    assert AgreesAt("x_", -1);
    DisjointCharactersDoNotOverlap("x");
    assert "x"[0..1] == "x" && "x_"[0..1] == "x";
    assert OccursAt("x", 0, "x") && OccursAt("x_", 0, "x");
    hide OverlapsSentinel;
    hide OccursAt;
    ContainsIn("x", 0, "x");
    ContainsIn("x_", 0, "x");
    hide Contains;
    forall m | m in {"x", "x_"} && m != "" ensures CoveredBy(m, {"x", "x_"}) {
      assert Contains(m, "x");
    }
  }
}
