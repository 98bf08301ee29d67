/** Two markers that overlap the sentinel, neither holding one that does not, and that nevertheless no
    redaction by just the two of them leaves behind: a set can be safe alone without being safe in company. */
module RedactionAlone {
  import opened MarkerReplacement
  import opened RedactionStream
  import opened Substrings

  const SHORT := "_D_D_"
  const LONG := "D_D_D_"
  const BOTH := "_D_D_D_D_"

  // ---------------------------------------------------------------- what a replaced text starts with

  /** `p` holds no start of a sentinel but perhaps its last character. */
  predicate NoSentinelStart(p: string) {
    forall k | 0 <= k < |p| - 1 :: !(p[k] == '_' && p[k + 1] == 'R')
  }

  lemma ReplaceOfMatch(t: string, m: string)
    requires m != "" && |t| >= |m| && m <= t
    ensures |Replace(t, m)| >= 2 && Replace(t, m)[0] == '_' && Replace(t, m)[1] == 'R'
  {
    hide Replace;
    UnfoldReplace(t, m);
  }

  lemma TailNoSentinelStart(p: string)
    requires p != "" && NoSentinelStart(p)
    ensures NoSentinelStart(p[1..])
  {
    forall k | 0 <= k < |p[1..]| - 1 ensures !(p[1..][k] == '_' && p[1..][k + 1] == 'R') {
      assert !(p[k + 1] == '_' && p[k + 1 + 1] == 'R');
    }
  }

  /** Where a replaced text starts with `p`, all of `p` but its last character was there before, and no
      occurrence started within it. */
  lemma {:induction false} PrefixWasThere(p: string, t: string, m: string)
    requires m != "" && p != "" && p <= Replace(t, m) && NoSentinelStart(p)
    ensures var n := |p| - 1;
            && n < |t| && p[..n] <= t && (t[n] == p[n] || (m <= t[n..] && p[n] == '_'))
            && (n > 0 ==> !(m <= t))
    decreases |p|
  {
    hide Replace;
    if |t| < |m| {
      ReplaceOfShort(t, m);
    } else if m <= t {
      ReplaceOfMatch(t, m);
    } else {
      UnfoldReplace(t, m);
      if |p| > 1 {
        var rest := p[1..];
        TailNoSentinelStart(p);
        assert rest <= Replace(t[1..], m);
        PrefixWasThere(rest, t[1..], m);
        var n := |p| - 1;
        assert p[..n] == [p[0]] + rest[..n - 1];
        assert t[1..][n - 1..] == t[n..];
      }
    }
  }

  /** No occurrence of a text starting "_D" begins within a sentinel but at its last character. */
  lemma WithinSentinel(rest: string, i: nat, m: string)
    requires |m| >= 2 && m[0] == '_' && m[1] == 'D' && OccursAt(REDACTION_SENTINEL + rest, i, m)
    ensures i >= 9
    ensures i == 9 ==> m[1..] <= rest
    ensures i >= 10 ==> OccursAt(rest, i - 10, m)
  {
    var s := REDACTION_SENTINEL + rest;
    assert s[i..i + |m|][0] == s[i] && s[i..i + |m|][1] == s[i + 1];
    if i == 9 {
      assert s[10..] == rest && s[9..9 + |m|][1..] == rest[..|m| - 1];
    } else if i >= 10 {
      Shift(REDACTION_SENTINEL, rest, i - 10, m);
    }
  }

  lemma BehindFirst(c: char, rest: string, i: nat, m: string)
    requires m != "" && OccursAt([c] + rest, i, m)
    ensures i == 0 ==> c == m[0] && m[1..] <= rest
    ensures i > 0 ==> OccursAt(rest, i - 1, m)
  {
    var s := [c] + rest;
    if i == 0 {
      assert s[0..|m|] == m && s[0..|m|][1..] == rest[..|m| - 1];
    } else {
      Shift([c], rest, i - 1, m);
    }
  }

  /** "D_D_" after a replacement was "D_D_" before, or "D_D" and an occurrence. */
  lemma TailWasThere(t: string, m: string)
    requires m != "" && "D_D_" <= Replace(t, m)
    ensures "D_D" <= t && |t| > 3 && (t[3] == '_' || m <= t[3..])
    ensures t[3] == '_' ==> "D_D_" <= t
  {
    var p := "D_D_";
    assert p[..3] == "D_D";
    PrefixWasThere(p, t, m);
  }

  lemma ShortInFront(t: string)
    requires |t| >= |SHORT| && !(SHORT <= t) && t[0] == '_'
    ensures !("D_D_" <= Replace(t[1..], SHORT))
  {
    hide Replace;
    if "D_D_" <= Replace(t[1..], SHORT) {
      TailWasThere(t[1..], SHORT);
      assert false;
    }
  }

  // ---------------------------------------------------------------- the longer marker first

  lemma {:induction false} LongFirst(t: string, i: nat)
    ensures !OccursAt(Replace(t, LONG), i, BOTH)
    decreases |t|
  {
    hide Replace;
    var r := Replace(t, LONG);
    if OccursAt(r, i, BOTH) {
      if |t| < |LONG| {
        ReplaceOfShort(t, LONG);
      } else if LONG <= t {
        UnfoldReplace(t, LONG);
        var rest := Replace(t[|LONG|..], LONG);
        WithinSentinel(rest, i, BOTH);
        if i == 9 { LongBehind(t[|LONG|..]); } else { LongFirst(t[|LONG|..], i - 10); }
      } else {
        UnfoldReplace(t, LONG);
        BehindFirst(t[0], Replace(t[1..], LONG), i, BOTH);
        if i == 0 { LongBehind(t[1..]); } else { LongFirst(t[1..], i - 1); }
      }
    }
  }

  lemma LongBehind(t: string)
    ensures !("D_D_D_D_" <= Replace(t, LONG))
  {
    hide Replace;
    var p := "D_D_D_D_";
    assert p[..7][..6] == LONG;
    if p <= Replace(t, LONG) {
      PrefixWasThere(p, t, LONG);
    }
  }

  /** Then the shorter one: it could only be left where both stood together. */
  lemma {:induction false} ShortSecond(u: string, i: nat)
    requires !Contains(u, BOTH)
    ensures !OccursAt(Replace(u, SHORT), i, SHORT)
    decreases |u|
  {
    hide Replace;
    hide Contains;
    if OccursAt(Replace(u, SHORT), i, SHORT) {
      if |u| < |SHORT| {
        ReplaceOfShort(u, SHORT);
      } else if SHORT <= u {
        UnfoldReplace(u, SHORT);
        var more := u[|SHORT|..];
        WithinSentinel(Replace(more, SHORT), i, SHORT);
        if i == 9 {
          TailWasThere(more, SHORT);
          assert u[0..9] == BOTH;
          ContainsIn(u, 0, BOTH);
        } else {
          SuffixLacks(u, |SHORT|, BOTH);
          ShortSecond(more, i - 10);
        }
      } else {
        UnfoldReplace(u, SHORT);
        BehindFirst(u[0], Replace(u[1..], SHORT), i, SHORT);
        if i == 0 {
          ShortInFront(u);
        } else {
          SuffixLacks(u, 1, BOTH);
          ShortSecond(u[1..], i - 1);
        }
      }
    }
  }

  lemma SuffixLacks(u: string, n: nat, m: string)
    requires n <= |u| && !Contains(u, m)
    ensures !Contains(u[n..], m)
  {
    assert u == u[..n] + u[n..];
    if Contains(u[n..], m) { ContainsLater(u[..n], u[n..], m); }
  }

  // ---------------------------------------------------------------- the shorter marker first

  /** Every occurrence of the shorter marker follows "ED", as far as the text reaches back. */
  ghost predicate Led(u: string) {
    forall i: nat :: OccursAt(u, i, SHORT) ==> i >= 1 && u[i - 1] == 'D' && (i >= 2 ==> u[i - 2] == 'E')
  }

  predicate FollowsED(u: string, i: nat) {
    2 <= i <= |u| && u[i - 1] == 'D' && u[i - 2] == 'E'
  }

  lemma FollowsLater(a: string, rest: string, i: nat)
    requires FollowsED(rest, i)
    ensures FollowsED(a + rest, |a| + i)
  {
  }

  lemma FollowsInSentinel(rest: string)
    ensures FollowsED(REDACTION_SENTINEL + rest, 9)
  {
  }

  lemma {:induction false} ShortFirst(t: string, i: nat)
    requires OccursAt(Replace(t, SHORT), i, SHORT)
    ensures FollowsED(Replace(t, SHORT), i)
    decreases |t|
  {
    hide Replace;
    hide OccursAt;
    hide FollowsED;
    if |t| < |SHORT| {
      ReplaceOfShort(t, SHORT);
      TooShort(t, i, SHORT);
    } else if SHORT <= t {
      UnfoldReplace(t, SHORT);
      var rest := Replace(t[|SHORT|..], SHORT);
      WithinSentinel(rest, i, SHORT);
      if i >= 10 {
        ShortFirst(t[|SHORT|..], i - 10);
        FollowsLater(REDACTION_SENTINEL, rest, i - 10);
      } else {
        FollowsInSentinel(rest);
      }
    } else {
      UnfoldReplace(t, SHORT);
      var rest := Replace(t[1..], SHORT);
      BehindFirst(t[0], rest, i, SHORT);
      if i == 0 {
        ShortInFront(t);
      } else {
        ShortFirst(t[1..], i - 1);
        FollowsLater([t[0]], rest, i - 1);
      }
    }
  }

  lemma TooShort(t: string, i: nat, m: string)
    requires |t| < |m|
    ensures !OccursAt(t, i, m)
  {
  }

  lemma LedAfterShort(t: string)
    ensures Led(Replace(t, SHORT))
  {
    hide Replace;
    forall i: nat | OccursAt(Replace(t, SHORT), i, SHORT) ensures FollowsED(Replace(t, SHORT), i) {
      ShortFirst(t, i);
    }
  }

  lemma LedThere(u: string, i: nat)
    requires Led(u) && i + 5 <= |u| && u[i..i + 5] == SHORT
    ensures i >= 1 && u[i - 1] == 'D' && (i >= 2 ==> u[i - 2] == 'E')
  {
    assert OccursAt(u, i, SHORT);
  }

  lemma OccursInWhole(u: string, n: nat, i: nat, m: string)
    requires n <= |u| && OccursAt(u[n..], i, m)
    ensures OccursAt(u, n + i, m)
  {
    assert u[n..][i..i + |m|] == u[n + i..n + i + |m|];
  }

  lemma LedSuffix(u: string, n: nat)
    requires Led(u) && n <= |u| && !OccursAt(u, n, SHORT)
    ensures Led(u[n..])
  {
    var v := u[n..];
    forall i: nat | OccursAt(v, i, SHORT)
      ensures i >= 1 && v[i - 1] == 'D' && (i >= 2 ==> v[i - 2] == 'E')
    {
      OccursInWhole(u, n, i, SHORT);
    }
  }

  lemma ShortTextLacks(u: string, i: nat)
    requires Led(u) && |u| < |LONG|
    ensures !OccursAt(u, i, SHORT)
  {
    hide Led;
    if OccursAt(u, i, SHORT) { LedThere(u, i); }
  }

  /** Then the longer one takes every occurrence of the shorter along. */
  lemma {:induction false} LongSecond(u: string, i: nat)
    requires Led(u)
    ensures !OccursAt(Replace(u, LONG), i, SHORT)
    decreases |u|
  {
    hide Replace;
    hide Led;
    hide OccursAt;
    if OccursAt(Replace(u, LONG), i, SHORT) {
      if |u| < |LONG| {
        ReplaceOfShort(u, LONG);
        ShortTextLacks(u, i);
      } else if LONG <= u {
        UnfoldReplace(u, LONG);
        WithinSentinel(Replace(u[|LONG|..], LONG), i, SHORT);
        if i == 9 {
          NoneBehindLong(u);
        } else {
          LedBehindLong(u);
          LongSecond(u[|LONG|..], i - 10);
        }
      } else {
        UnfoldReplace(u, LONG);
        BehindFirst(u[0], Replace(u[1..], LONG), i, SHORT);
        if i == 0 {
          NoneInFront(u);
        } else {
          LedBehindOne(u);
          LongSecond(u[1..], i - 1);
        }
      }
    }
  }

  lemma LedBehindLong(u: string)
    requires Led(u) && LONG <= u
    ensures Led(u[|LONG|..])
  {
    hide Led;
    if OccursAt(u, 6, SHORT) { LedThere(u, 6); }
    LedSuffix(u, 6);
  }

  lemma LedBehindOne(u: string)
    requires Led(u) && |u| >= |LONG| && !(LONG <= u)
    ensures Led(u[1..])
  {
    hide Led;
    if OccursAt(u, 1, SHORT) { LedThere(u, 1); }
    LedSuffix(u, 1);
  }

  lemma ShortInLong(u: string, i: nat)
    requires i <= |u| && LONG <= u[i..]
    ensures i + 6 <= |u| && u[i + 1..i + 6] == SHORT
  {
    assert LONG[1..6] == SHORT && u[i..][..6] == LONG;
    assert u[i..][..6][1..6] == u[i + 1..i + 6];
  }

  lemma NoneBehindLong(u: string)
    requires Led(u) && LONG <= u
    ensures !("D_D_" <= Replace(u[|LONG|..], LONG))
  {
    hide Replace;
    hide Led;
    var more := u[|LONG|..];
    if "D_D_" <= Replace(more, LONG) {
      TailWasThere(more, LONG);
      if more[3] == '_' {
        assert u[3..8] == SHORT;
        LedThere(u, 3);
      } else {
        assert more[3..] == u[9..];
        ShortInLong(u, 9);
        LedThere(u, 10);
      }
    }
  }

  lemma NoneInFront(u: string)
    requires Led(u) && u != "" && u[0] == '_'
    ensures !("D_D_" <= Replace(u[1..], LONG))
  {
    hide Replace;
    hide Led;
    var more := u[1..];
    if "D_D_" <= Replace(more, LONG) {
      TailWasThere(more, LONG);
      if more[3] == '_' {
        assert u[0..5] == SHORT;
        LedThere(u, 0);
      } else {
        assert more[3..] == u[4..];
        ShortInLong(u, 4);
        LedThere(u, 5);
      }
    }
  }

  // ---------------------------------------------------------------- the two together

  lemma BothOverlap()
    ensures OverlapsSentinel(SHORT) && OverlapsSentinel(LONG) && !AllCovered({SHORT, LONG})
  {
    assert AgreesAt(SHORT, 9) && AgreesAt(LONG, 8);
    hide AgreesAt;
    assert !CoveredBy(SHORT, {SHORT, LONG});
    assert SHORT in {SHORT, LONG} && SHORT != "";
  }

  lemma OneOfTwo(order: seq<string>, i: nat, j: nat, k: nat)
    requires Enumerates(order, {SHORT, LONG}) && i < |order| && j < |order| && k < |order|
    requires order[i] == SHORT && order[j] == LONG
    ensures k == i || k == j
  {
    var markers := {SHORT, LONG};
    assert order[k] in order;
    assert order[k] in markers;
  }

  lemma TwoOrders(order: seq<string>)
    requires Enumerates(order, {SHORT, LONG})
    ensures order == [SHORT, LONG] || order == [LONG, SHORT]
  {
    var markers := {SHORT, LONG};
    assert SHORT in markers && LONG in markers && |SHORT| != |LONG|;
    var i :| 0 <= i < |order| && order[i] == SHORT;
    var j :| 0 <= j < |order| && order[j] == LONG;
    if |order| > 2 {
      OneOfTwo(order, i, j, 0);
      OneOfTwo(order, i, j, 1);
      OneOfTwo(order, i, j, 2);
    }
  }

  lemma NeitherLeft(t: string)
    requires forall i: nat :: !OccursAt(t, i, SHORT)
    ensures !ContainsMarker(t, {SHORT, LONG})
  {
    assert OccursAt(LONG, 1, SHORT);
    ContainsIn(LONG, 1, SHORT);
    if Contains(t, LONG) { ContainsTransitive(t, LONG, SHORT); }
    hide OccursAt;
    assert !Contains(t, SHORT);
  }

  lemma InTurn(t: string, a: string, b: string)
    requires a != "" && b != ""
    ensures RedactInOrder(t, [a, b]) == Replace(Replace(t, a), b)
  {
    hide Replace;
    RedactSnoc(t, [a], b);
    RedactSnoc(t, [], a);
    assert [a] + [b] == [a, b] && [] + [a] == [a];
  }

  /** "_D_D_" and "D_D_D_" both overlap the sentinel, so in some company they survive; redacted by just the
      two of them, in either order, no text keeps one. */
  lemma SafeOnlyAlone()
    ensures !AllCovered({SHORT, LONG}) && SafeAlone({SHORT, LONG})
    ensures forall t, order | Enumerates(order, {SHORT, LONG}) ::
              !ContainsMarker(RedactInOrder(t, order), {SHORT, LONG})
  {
    BothOverlap();
    hide *;
    SafeAloneIff({SHORT, LONG});
    forall t, order | Enumerates(order, {SHORT, LONG})
      ensures !ContainsMarker(RedactInOrder(t, order), {SHORT, LONG})
    {
      TwoOrders(order);
      if order == [SHORT, LONG] {
        ShortThenLong(t);
      } else {
        LongThenShort(t);
      }
    }
  }

  lemma ShortThenLong(t: string)
    ensures !ContainsMarker(RedactInOrder(t, [SHORT, LONG]), {SHORT, LONG})
  {
    hide RedactInOrder;
    hide Replace;
    hide ContainsMarker;
    hide OccursAt;
    hide Led;
    var u := Replace(t, SHORT);
    LedAfterShort(t);
    forall i: nat ensures !OccursAt(Replace(u, LONG), i, SHORT) { LongSecond(u, i); }
    InTurn(t, SHORT, LONG);
    NeitherLeft(Replace(u, LONG));
  }

  lemma LongThenShort(t: string)
    ensures !ContainsMarker(RedactInOrder(t, [LONG, SHORT]), {SHORT, LONG})
  {
    hide RedactInOrder;
    hide Replace;
    hide ContainsMarker;
    hide OccursAt;
    var u := Replace(t, LONG);
    forall i: nat ensures !OccursAt(u, i, BOTH) { LongFirst(t, i); }
    forall i: nat ensures !OccursAt(Replace(u, SHORT), i, SHORT) { ShortSecond(u, i); }
    InTurn(t, LONG, SHORT);
    NeitherLeft(Replace(u, SHORT));
  }
}
