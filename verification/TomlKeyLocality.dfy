/** Key readers look no further than what they read: a complete key reads the same whatever follows it, and
    goes on after a dot. */
module TomlKeyLocality {
  import opened Wrappers
  import opened ConfigOverlay
  import opened Scanning
  import opened TomlReader
  import opened TomlText
  import QuotedText

  lemma ReadCharLocal(s: string, other: string)
    requires QuotedText.ReadChar(s, false).Some?
    ensures var (c, rest) := QuotedText.ReadChar(s, false).value;
            var n := |s| - |rest|;
            n > 0 && s == s[..n] + rest && QuotedText.ReadChar(s[..n] + other, false) == Some((c, other))
  {
    hide QuotedText.ReadHex4;
    var (c, rest) := QuotedText.ReadChar(s, false).value;
    var n := |s| - |rest|;
    assert rest == s[n..];
    var t := s[..n] + other;
    assert t[n..] == other;
    assert forall i | 0 <= i < n :: t[i] == s[i];
    if n == 6 {
      SameHex(s[2..], t[2..]);
    }
  }

  lemma SameHex(s: string, t: string)
    requires |s| >= 4 && |t| >= 4 && s[..4] == t[..4]
    ensures QuotedText.ReadHex4(s) == QuotedText.ReadHex4(t)
  {
    assert forall i | 0 <= i < 4 :: s[i] == s[..4][i] == t[..4][i] == t[i];
  }

  lemma {:induction false} ReadBodyLocal(s: string, other: string)
    requires QuotedText.ReadBody(s, false).Some?
    ensures var (t, rest) := QuotedText.ReadBody(s, false).value;
            var n := |s| - |rest|;
            n > 0 && s == s[..n] + rest && QuotedText.ReadBody(s[..n] + other, false) == Some((t, other))
    decreases |s|
  {
    hide QuotedText.ReadChar;
    var (t, rest) := QuotedText.ReadBody(s, false).value;
    var n := |s| - |rest|;
    if s[0] == QuotedText.QUOTE {
      assert s[..1] + other == [s[0]] + other && (s[..1] + other)[1..] == other;
      assert s == s[..1] + s[1..];
    } else {
      var (c, after) := QuotedText.ReadChar(s, false).value;
      ReadBodyLocal(after, other);
      var k, m := |s| - |after|, |after| - |rest|;
      ReadCharLocal(s, after[..m] + other);
      Prefixes(s, k, after, m, other);
      assert s[0] == (s[..n] + other)[0];
      ReadBodyIs(s[..n] + other);
    }
  }

  lemma ReadBodyIs(s: string)
    requires s != "" && s[0] != QuotedText.QUOTE
    ensures QuotedText.ReadBody(s, false)
         == match QuotedText.ReadChar(s, false)
            case None => None
            case Some((c, after)) =>
              match QuotedText.ReadBody(after, false)
              case None => None
              case Some((t, rest)) => Some(([c] + t, rest))
  {
    hide QuotedText.ReadChar;
  }

  /** Reading `k` characters and then `m` more is reading `k + m`. */
  lemma Prefixes(s: string, k: nat, after: string, m: nat, other: string)
    requires k <= |s| && s == s[..k] + after && m <= |after| && after == after[..m] + after[m..]
    ensures k + m <= |s| && s == s[..k + m] + after[m..] && s[..k + m] + other == s[..k] + (after[..m] + other)
  {
    assert after == s[k..] && after[m..] == s[k + m..];
    assert s[..k + m] == s[..k] + after[..m];
  }

  lemma ReadLiteralLocal(s: string, other: string)
    requires ReadLiteral(s).Some?
    ensures var (t, rest) := ReadLiteral(s).value;
            var n := |s| - |rest|;
            n > 0 && s == s[..n] + rest && ReadLiteral(s[..n] + other) == Some((t, other))
  {
    hide RunLength;
    var k := RunLength(IsLiteralChar, s);
    var t := s[..k];
    assert s == t + [APOSTROPHE] + s[k + 1..] && s[..k + 1] == t + [APOSTROPHE];
    var u := s[..k + 1] + other;
    assert u == t + ([APOSTROPHE] + other);
    RunLengthOf(IsLiteralChar, t, [APOSTROPHE] + other);
    assert u[..k] == t && u[k] == APOSTROPHE && u[k + 1..] == other;
  }

  /** A quoted text whose body was cut at `rest`. */
  lemma BehindMark(s: string, rest: string, other: string)
    requires s != "" && |rest| < |s[1..]| && s[1..] == s[1..][..|s[1..]| - |rest|] + rest
    ensures var n := |s| - |rest|;
            && n > 0 && s == s[..n] + rest && (s[..n] + other)[0] == s[0]
            && (s[..n] + other)[1..] == s[1..][..|s[1..]| - |rest|] + other
  {
    var n := |s| - |rest|;
    assert s[..n] == [s[0]] + s[1..][..n - 1];
  }

  /** A bare run may go on, so what follows must stop it. */
  lemma BareKeyLocal(s: string, other: string)
    requires ReadKey(s).Some? && s[0] != QuotedText.QUOTE && s[0] != APOSTROPHE && Ends(IsBareChar, other)
    ensures var (k, rest) := ReadKey(s).value;
            var n := |s| - |rest|;
            n > 0 && s == s[..n] + rest && ReadKey(s[..n] + other) == Some((k, other))
  {
    hide RunLength;
    hide IsBareChar;
    var (k, rest) := ReadKey(s).value;
    var n := |s| - |rest|;
    var u := s[..n] + other;
    assert rest == s[n..] && k == s[..n];
    RunLengthOf(IsBareChar, k, other);
    assert u[..n] == k && u[n..] == other && u[0] == s[0];
  }

  lemma QuotedKeyIs(s: string)
    requires s != ""
    ensures s[0] == QuotedText.QUOTE ==> ReadKey(s) == QuotedText.ReadBody(s[1..], false)
    ensures s[0] == APOSTROPHE ==> ReadKey(s) == ReadLiteral(s[1..])
  {
    hide QuotedText.ReadBody;
    hide ReadLiteral;
    hide RunLength;
  }

  lemma ReadKeyLocal(s: string, other: string)
    requires ReadKey(s).Some? && Ends(IsBareChar, other)
    ensures var (k, rest) := ReadKey(s).value;
            var n := |s| - |rest|;
            n > 0 && s == s[..n] + rest && ReadKey(s[..n] + other) == Some((k, other))
  {
    assert s != "";
    hide *;
    var rest := ReadKey(s).value.1;
    var u := s[..|s| - |rest|] + other;
    QuotedKeyIs(s);
    if s[0] == QuotedText.QUOTE {
      ReadBodyLocal(s[1..], other);
      BehindMark(s, rest, other);
      QuotedKeyIs(u);
    } else if s[0] == APOSTROPHE {
      ReadLiteralLocal(s[1..], other);
      BehindMark(s, rest, other);
      QuotedKeyIs(u);
    } else {
      BareKeyLocal(s, other);
    }
  }

  lemma {:induction false} SkipBlanksLocal(s: string, other: string)
    ensures var n := |s| - |SkipBlanks(s)|;
            && s == s[..n] + SkipBlanks(s)
            && SkipBlanks(s[..n] + other) == SkipBlanks(other)
  {
    hide *;
    SkipBlanksIs(s);
    var u := SkipBlanks(s);
    var n := |s| - |u|;
    if s != "" && IsBlank(s[0]) {
      SkipBlanksLocal(s[1..], other);
      BlankTaken(s, u, other);
      SkipBlanksIs(s[..n] + other);
    } else {
      assert s[..0] + other == other && s == s[..0] + s;
    }
  }

  lemma SkipBlanksIs(s: string)
    ensures SkipBlanks(s) == if s == "" || !IsBlank(s[0]) then s else SkipBlanks(s[1..])
  {
  }

  lemma BlankTaken(s: string, u: string, other: string)
    requires s != "" && |u| < |s| && s[1..] == s[1..][..|s| - 1 - |u|] + u
    ensures var n := |s| - |u|;
            && s == s[..n] + u && s[..n] + other != "" && (s[..n] + other)[0] == s[0]
            && (s[..n] + other)[1..] == s[1..][..n - 1] + other
  {
    var n := |s| - |u|;
    assert s[..n] == [s[0]] + s[1..][..n - 1];
    assert s == [s[0]] + s[1..];
  }

  /** What may stand after a complete key: neither a blank nor a bare character. */
  predicate Stops(other: string) {
    other == "" || (!IsBareChar(other[0]) && !IsBlank(other[0]))
  }

  /** A key path read so far, before `other`: it goes on after a dot. */
  function Continued(p: Path, other: string): Option<(Path, string)> {
    if other != "" && other[0] == '.' then
      match ReadKeys(other[1..])
      case None => None
      case Some((more, after)) => Some((p + more, after))
    else Some((p, other))
  }

  lemma KeysAre(s: string)
    ensures ReadKeys(s)
         == match ReadKey(SkipBlanks(s))
            case None => None
            case Some((k, rest)) =>
              var u := SkipBlanks(rest);
              if u != "" && u[0] == '.' then
                match ReadKeys(u[1..])
                case None => None
                case Some((more, after)) => Some(([k] + more, after))
              else Some(([k], u))
  {
    hide ReadKey;
    hide SkipBlanks;
  }

  /** A complete key reads the same before any text that does not extend its last part. */
  lemma {:induction false} ReadKeysLocal(s: string, other: string)
    requires ReadKeys(s).Some? && Stops(other)
    ensures var (p, rest) := ReadKeys(s).value;
            |rest| <= |s| && s == s[..|s| - |rest|] + rest
            && ReadKeys(s[..|s| - |rest|] + other) == Continued(p, other)
    decreases |s|
  {
    hide *;
    KeysAre(s);
    var (k, first) := ReadKey(SkipBlanks(s)).value;
    var u := SkipBlanks(first);
    if u != "" && u[0] == '.' {
      ReadKeysLocal(u[1..], other);
      var (p, rest) := ReadKeys(u[1..]).value;
      var v := u[1..][..|u[1..]| - |rest|];
      DotStops(v + other);
      KeyThen(s, u, "." + (v + other));
      DottedText(s, u, v, other);
      DottedRest(s, u, v, rest);
      ContinuedTwice(k, p, v, other);
    } else {
      KeyThen(s, u, other);
    }
  }

  lemma DotStops(s: string)
    ensures Stops("." + s)
  {
  }

  lemma ContinuedTwice(k: string, p: Path, v: string, other: string)
    requires ReadKeys(v + other) == Continued(p, other)
    ensures Continued([k], "." + (v + other)) == Continued([k] + p, other)
  {
    hide ReadKeys;
    assert ("." + (v + other))[1..] == v + other;
    if other != "" && other[0] == '.' && ReadKeys(other[1..]).Some? {
      var q := ReadKeys(other[1..]).value.0;
      assert [k] + (p + q) == [k] + p + q;
    }
  }

  lemma DottedRest(s: string, u: string, v: string, rest: string)
    requires |u| <= |s| && s == s[..|s| - |u|] + u && u != "" && u[0] == '.' && u[1..] == v + rest
    ensures |rest| <= |s| && |s| - |rest| == |s| - |u| + 1 + |v| && s == s[..|s| - |rest|] + rest
  {
    var n := |s| - |u|;
    assert s[n + 1..] == u[1..];
    assert s[|s| - |rest|..] == rest;
  }

  /** The first key of `t`, after which `u` remains, read again before other text. */
  lemma KeyAgain(t: string, u: string, other: string)
    requires ReadKey(t).Some? && SkipBlanks(t) == t && u == SkipBlanks(ReadKey(t).value.1) && Stops(other)
    ensures |u| < |t| && t == t[..|t| - |u|] + u
    ensures var again := t[..|t| - |u|] + other;
            && SkipBlanks(again) == again && ReadKey(again).Some?
            && ReadKey(again).value.0 == ReadKey(t).value.0 && SkipBlanks(ReadKey(again).value.1) == other
  {
    hide *;
    var (k, rest) := ReadKey(t).value;
    var b, c := |t| - |rest|, |rest| - |u|;
    SkipBlanksLocal(rest, other);
    BlanksEnd(rest, other);
    KeyTakes(t);
    ReadKeyLocal(t, rest[..c] + other);
    AfterFirst(rest, c, u);
    Prefixes(t, b, rest, c, other);
    KeyStartsVisibly(t, t[..|t| - |u|] + other);
    NotBlankFirst(other);
  }

  lemma AfterFirst(rest: string, c: nat, u: string)
    requires c <= |rest| && rest == rest[..c] + u
    ensures rest[c..] == u
  {
  }

  /** The same with blanks before it. */
  lemma KeyThen(s: string, u: string, other: string)
    requires ReadKey(SkipBlanks(s)).Some? && u == SkipBlanks(ReadKey(SkipBlanks(s)).value.1)
    requires Stops(other)
    ensures |u| <= |s| && s == s[..|s| - |u|] + u
    ensures ReadKeys(s[..|s| - |u|] + other) == Continued([ReadKey(SkipBlanks(s)).value.0], other)
  {
    hide *;
    var t := SkipBlanks(s);
    var n := |t| - |u|;
    SkippedTwice(s);
    KeyAgain(t, u, other);
    SkipBlanksLocal(s, t[..n] + other);
    AfterFirst(t, n, u);
    AfterFirst(s, |s| - |t|, t);
    Prefixes(s, |s| - |t|, t, n, other);
    KeysAre(s[..|s| - |u|] + other);
    ContinuedIs(ReadKey(t).value.0, other);
  }

  lemma SkippedTwice(s: string)
    ensures SkipBlanks(SkipBlanks(s)) == SkipBlanks(s)
  {
    SkipBlanksIs(SkipBlanks(s));
  }

  lemma ContinuedIs(k: string, other: string)
    ensures Continued([k], other)
         == if other != "" && other[0] == '.' then
              match ReadKeys(other[1..])
              case None => None
              case Some((more, after)) => Some(([k] + more, after))
            else Some(([k], other))
  {
    hide ReadKeys;
  }

  lemma NotBlankFirst(other: string)
    requires Stops(other)
    ensures SkipBlanks(other) == other
  {
  }

  lemma KeyTakes(t: string)
    requires ReadKey(t).Some?
    ensures |ReadKey(t).value.1| < |t|
  {
  }

  /** The blanks after a key, or what stands in their place, stop a bare run. */
  lemma BlanksEnd(rest: string, other: string)
    requires Stops(other)
    ensures Ends(IsBareChar, rest[..|rest| - |SkipBlanks(rest)|] + other)
  {
    if rest != "" && IsBlank(rest[0]) {
      assert |SkipBlanks(rest)| < |rest|;
      assert (rest[..|rest| - |SkipBlanks(rest)|] + other)[0] == rest[0];
    } else {
      assert rest[..0] + other == other;
    }
  }

  lemma KeyStartsVisibly(t: string, u: string)
    requires t != "" && SkipBlanks(t) == t && u != "" && u[0] == t[0]
    ensures SkipBlanks(u) == u
  {
  }

  lemma DottedText(s: string, u: string, v: string, other: string)
    requires |u| <= |s| && s == s[..|s| - |u|] + u && u != "" && u[0] == '.' && v <= u[1..]
    ensures |s| - |u| + 1 + |v| <= |s|
    ensures s[..|s| - |u| + 1 + |v|] + other == s[..|s| - |u|] + ("." + (v + other))
    ensures ("." + (v + other))[1..] == v + other
  {
    var n := |s| - |u|;
    assert u == "." + u[1..];
    assert s[n + 1..] == u[1..];
    assert s[..n + 1 + |v|] == s[..n] + "." + v;
  }
}
