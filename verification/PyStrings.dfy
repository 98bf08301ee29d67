/** Python's whitespace, `str.strip` and joining with newlines. */
module PyStrings {

  /** `str.isspace` of one character. */
  predicate IsSpace(c: char) {
    var n := c as int;
    0x09 <= n <= 0x0D || 0x1C <= n <= 0x20 || n == 0x85 || n == 0xA0 || n == 0x1680
    || 0x2000 <= n <= 0x200A || n == 0x2028 || n == 0x2029 || n == 0x202F || n == 0x205F || n == 0x3000
  }

  predicate AllSpace(s: string) {
    forall i | 0 <= i < |s| :: IsSpace(s[i])
  }

  function RStrip(s: string): (t: string)
    ensures t <= s && AllSpace(s[|t|..]) && (t == "" || !IsSpace(t[|t| - 1]))
  {
    if s == "" || !IsSpace(s[|s| - 1]) then s
    else
      var t := RStrip(s[..|s| - 1]);
      SpaceAfter(s, t);
      t
  }

  lemma SpaceAfter(s: string, t: string)
    requires s != "" && IsSpace(s[|s| - 1]) && t <= s[..|s| - 1] && AllSpace(s[..|s| - 1][|t|..])
    ensures t <= s && AllSpace(s[|t|..])
  {
    hide IsSpace;
    var m := |s| - |t|;
    forall i | 0 <= i < m ensures IsSpace(s[|t|..][i]) {
      assert i < m - 1 ==> s[|t|..][i] == s[..|s| - 1][|t|..][i];
    }
  }

  function LStrip(s: string): (t: string)
    ensures |t| <= |s| && t == s[|s| - |t|..] && AllSpace(s[..|s| - |t|]) && (t == "" || !IsSpace(t[0]))
  {
    if s == "" || !IsSpace(s[0]) then s
    else
      var t := LStrip(s[1..]);
      SpaceBefore(s, t);
      t
  }

  lemma SpaceBefore(s: string, t: string)
    requires s != "" && IsSpace(s[0]) && |t| < |s| && t == s[1..][|s| - 1 - |t|..] && AllSpace(s[1..][..|s| - 1 - |t|])
    ensures t == s[|s| - |t|..] && AllSpace(s[..|s| - |t|])
  {
    hide IsSpace;
    var n := |s| - |t|;
    forall i | 0 <= i < n ensures IsSpace(s[..n][i]) {
      assert i > 0 ==> s[..n][i] == s[1..][..n - 1][i - 1];
    }
  }

  /** `s.strip()`. */
  function Strip(s: string): string {
    RStrip(LStrip(s))
  }

  lemma StripEmptyIff(s: string)
    ensures Strip(s) == "" <==> AllSpace(s)
  {
    var l := LStrip(s);
    var t := RStrip(l);
    if t == "" {
      assert l[|t|..] == l;
      assert l == "";
      assert s[..|s|] == s;
    } else {
      assert !IsSpace(l[0]) && l[0] == s[|s| - |l|];
    }
  }

  /** `"\n".join(ts)`. */
  function JoinLines(ts: seq<string>): string {
    if ts == [] then ""
    else if |ts| == 1 then ts[0]
    else ts[0] + "\n" + JoinLines(ts[1..])
  }

  lemma JoinLinesUnfold(ts: seq<string>)
    requires ts != []
    ensures JoinLines(ts) == if |ts| == 1 then ts[0] else ts[0] + "\n" + JoinLines(ts[1..])
  {
  }

  lemma {:induction false} JoinSnoc(ts: seq<string>, t: string)
    requires ts != []
    ensures JoinLines(ts + [t]) == JoinLines(ts) + "\n" + t
  {
    if |ts| == 1 {
      assert (ts + [t])[1..] == [t];
    } else {
      assert (ts + [t])[1..] == ts[1..] + [t];
      JoinSnoc(ts[1..], t);
    }
  }

  lemma {:induction false} JoinAllSpaceIff(ts: seq<string>)
    ensures AllSpace(JoinLines(ts)) <==> forall i | 0 <= i < |ts| :: AllSpace(ts[i])
  {
    if |ts| == 1 {
      assert ts == [ts[0]];
    } else if |ts| > 1 {
      JoinAllSpaceIff(ts[1..]);
      AllSpaceConcat(ts[0] + "\n", JoinLines(ts[1..]));
      AllSpaceConcat(ts[0], "\n");
      assert IsSpace('\n') && AllSpace("\n");
      hide AllSpace;
      if AllSpace(ts[0]) && AllSpace(JoinLines(ts[1..])) {
        forall i | 0 <= i < |ts| ensures AllSpace(ts[i]) { assert i > 0 ==> ts[i] == ts[1..][i - 1]; }
      }
      if forall i | 0 <= i < |ts| :: AllSpace(ts[i]) {
        forall i | 0 <= i < |ts[1..]| ensures AllSpace(ts[1..][i]) { assert ts[1..][i] == ts[i + 1]; }
      }
    }
  }

  lemma AllSpaceConcat(a: string, b: string)
    ensures AllSpace(a + b) <==> AllSpace(a) && AllSpace(b)
  {
    if AllSpace(a + b) {
      forall i | 0 <= i < |a| ensures IsSpace(a[i]) { assert (a + b)[i] == a[i]; }
      forall i | 0 <= i < |b| ensures IsSpace(b[i]) { assert (a + b)[|a| + i] == b[i]; }
    }
  }

  /** The twenty-nine characters that count as whitespace. */
  lemma WhitespaceIs(c: char)
    ensures IsSpace(c) <==> c as int in {
              0x09, 0x0A, 0x0B, 0x0C, 0x0D, 0x1C, 0x1D, 0x1E, 0x1F, 0x20, 0x85, 0xA0, 0x1680,
              0x2000, 0x2001, 0x2002, 0x2003, 0x2004, 0x2005, 0x2006, 0x2007, 0x2008, 0x2009, 0x200A,
              0x2028, 0x2029, 0x202F, 0x205F, 0x3000}
  {
  }

  lemma {:induction false} LStripSpaces(a: string, t: string)
    requires AllSpace(a) && t != "" && !IsSpace(t[0])
    ensures LStrip(a + t) == t
  {
    hide IsSpace;
    if a == "" {
      assert a + t == t;
    } else {
      assert (a + t)[0] == a[0] && (a + t)[1..] == a[1..] + t;
      LStripSpaces(a[1..], t);
    }
  }

  lemma {:induction false} RStripSpaces(t: string, b: string)
    requires AllSpace(b) && t != "" && !IsSpace(t[|t| - 1])
    ensures RStrip(t + b) == t
  {
    hide IsSpace;
    if b == "" {
      assert t + b == t;
    } else {
      var n := |t + b| - 1;
      assert (t + b)[n] == b[|b| - 1] && (t + b)[..n] == t + b[..|b| - 1];
      RStripSpaces(t, b[..|b| - 1]);
    }
  }

  /** Stripping takes all the whitespace off both ends and nothing else. */
  lemma StripTakesBothEnds(a: string, m: string, b: string)
    requires AllSpace(a) && AllSpace(b) && (m != "" ==> !IsSpace(m[0]) && !IsSpace(m[|m| - 1]))
    ensures Strip(a + m + b) == m
  {
    hide IsSpace;
    hide LStrip;
    hide RStrip;
    if m == "" {
      assert a + m + b == a + b;
      AllSpaceConcat(a, b);
      StripEmptyIff(a + b);
    } else {
      assert a + m + b == a + (m + b);
      LStripSpaces(a, m + b);
      RStripSpaces(m, b);
    }
  }

  /** One newline between two texts, and none around them. */
  lemma LinesJoined(t: string, ts: seq<string>, us: seq<string>)
    ensures JoinLines([]) == "" && JoinLines([t]) == t
    ensures ts != [] && us != [] ==> JoinLines(ts + us) == JoinLines(ts) + "\n" + JoinLines(us)
  {
    if ts != [] && us != [] { JoinConcat(ts, us); }
  }

  lemma {:induction false} JoinConcat(ts: seq<string>, us: seq<string>)
    requires ts != [] && us != []
    ensures JoinLines(ts + us) == JoinLines(ts) + "\n" + JoinLines(us)
  {
    assert (ts + us)[0] == ts[0] && (ts + us)[1..] == ts[1..] + us;
    if |ts| == 1 {
      assert ts[1..] + us == us;
    } else {
      JoinConcat(ts[1..], us);
    }
  }
}
