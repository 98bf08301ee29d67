/** Occurrences of one text in another. */
module Substrings {

  predicate OccursAt(t: string, i: nat, m: string) {
    i + |m| <= |t| && t[i..i + |m|] == m
  }

  /** `m in t`. */
  predicate Contains(t: string, m: string) {
    exists i | 0 <= i <= |t| :: OccursAt(t, i, m)
  }

  lemma ContainsIn(t: string, i: nat, m: string)
    requires OccursAt(t, i, m)
    ensures Contains(t, m)
  {
  }

  lemma OccursWithin(t: string, m: string)
    requires Contains(t, m)
    ensures |m| <= |t| && (|m| == |t| ==> m == t)
  {
    var i :| 0 <= i <= |t| && OccursAt(t, i, m);
    if |m| == |t| { assert t[0..|t|] == t; }
  }

  lemma ContainsTransitive(t: string, m: string, n: string)
    requires Contains(t, m) && Contains(m, n)
    ensures Contains(t, n)
  {
    var i :| 0 <= i <= |t| && OccursAt(t, i, m);
    var j :| 0 <= j <= |m| && OccursAt(m, j, n);
    var a := t[i + j..i + j + |n|];
    forall k | 0 <= k < |n| ensures a[k] == n[k] {
      assert n[k] == m[j..j + |n|][k] == m[j + k] == t[i..i + |m|][j + k] == t[i + j + k];
    }
    assert a == n;
    ContainsIn(t, i + j, n);
  }

  /** Two slices of a text, one inside the other. */
  lemma WithinSlice(t: string, i: nat, a: string, j: nat, b: string)
    requires i <= j && j + |b| <= i + |a| <= |t| && t[i..i + |a|] == a && t[j..j + |b|] == b
    ensures OccursAt(a, j - i, b)
  {
    var s := a[j - i..j - i + |b|];
    forall k | 0 <= k < |b| ensures s[k] == b[k] {
      assert b[k] == t[j..j + |b|][k] == t[j + k] == t[i..i + |a|][j - i + k];
    }
    assert s == b;
  }

  lemma PartsOf(p: string, q: string, r: string)
    ensures (p + q + r)[|p|..|p| + |q|] == q
  {
  }

  lemma ContainsIffBetween(t: string, m: string)
    ensures Contains(t, m) <==> exists a: string, b: string :: t == a + m + b
  {
    if Contains(t, m) {
      var i :| 0 <= i <= |t| && OccursAt(t, i, m);
      assert t == t[..i] + m + t[i + |m|..];
    }
    if exists a: string, b: string :: t == a + m + b {
      var a: string, b: string :| t == a + m + b;
      PartsOf(a, m, b);
      ContainsIn(t, |a|, m);
    }
  }
}
