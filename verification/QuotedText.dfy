/** The string literal of `json.dumps` (ASCII only) and the readers that undo it.
    JSON joins a `\uD8xx\uDCxx` pair into one character; TOML refuses both halves. */
module QuotedText {
  import opened Wrappers

  const QUOTE: char := '\"'
  const BACKSLASH: char := '\\'

  function HexChar(d: nat): (c: char)
    requires d < 16
  {
    if d < 10 then ('0' as int + d) as char else ('a' as int + (d - 10)) as char
  }

  function HexDigit(c: char): (d: Option<nat>)
    ensures d.Some? ==> d.value < 16
  {
    if '0' <= c <= '9' then Some(c as int - '0' as int)
    else if 'a' <= c <= 'f' then Some(c as int - 'a' as int + 10)
    else if 'A' <= c <= 'F' then Some(c as int - 'A' as int + 10)
    else None
  }

  /** Four lower-case hex digits. */
  function Hex4(n: nat): (s: string)
    requires n < 0x10000
    ensures |s| == 4
  {
    [HexChar(n / 0x1000), HexChar(n / 0x100 % 0x10), HexChar(n / 0x10 % 0x10), HexChar(n % 0x10)]
  }

  function ReadHex4(s: string): (n: Option<nat>)
    requires |s| >= 4
    ensures n.Some? ==> n.value < 0x10000
  {
    var a, b, c, d := HexDigit(s[0]), HexDigit(s[1]), HexDigit(s[2]), HexDigit(s[3]);
    if a.Some? && b.Some? && c.Some? && d.Some?
    then Some(0x1000 * a.value + 0x100 * b.value + 0x10 * c.value + d.value)
    else None
  }

  function UnicodeEscape(n: nat): (s: string)
    requires n < 0x10000
    ensures |s| == 6
  {
    [BACKSLASH, 'u'] + Hex4(n)
  }

  predicate InBasicPlane(c: char) {
    c as int < 0x10000
  }

  function HighSurrogate(c: char): (n: nat)
    requires !InBasicPlane(c)
    ensures 0xD800 <= n < 0xDC00
  {
    0xD800 + (c as int - 0x10000) / 0x400
  }

  function LowSurrogate(c: char): (n: nat)
    requires !InBasicPlane(c)
    ensures 0xDC00 <= n < 0xE000
  {
    0xDC00 + (c as int - 0x10000) % 0x400
  }

  function EscapeChar(c: char): (s: string)
    ensures s != ""
  {
    if c == QUOTE then [BACKSLASH, QUOTE]
    else if c == BACKSLASH then [BACKSLASH, BACKSLASH]
    else if c == '\n' then [BACKSLASH, 'n']
    else if c == '\r' then [BACKSLASH, 'r']
    else if c == '\t' then [BACKSLASH, 't']
    else if c as int == 0x0C then [BACKSLASH, 'f']
    else if c as int == 0x08 then [BACKSLASH, 'b']
    else if 0x20 <= c as int <= 0x7E then [c]
    else if InBasicPlane(c) then UnicodeEscape(c as int)
    else UnicodeEscape(HighSurrogate(c)) + UnicodeEscape(LowSurrogate(c))
  }

  function Escape(s: string): string {
    if s == "" then "" else EscapeChar(s[0]) + Escape(s[1..])
  }

  /** `json.dumps(s)` for a string. */
  function Quote(s: string): string {
    [QUOTE] + Escape(s) + [QUOTE]
  }

  function SimpleEscape(c: char): Option<char> {
    if c == QUOTE || c == BACKSLASH then Some(c)
    else if c == 'n' then Some('\n')
    else if c == 'r' then Some('\r')
    else if c == 't' then Some('\t')
    else if c == 'f' then Some(0x0C as char)
    else if c == 'b' then Some(0x08 as char)
    else None
  }

  /** Control characters a literal may hold unescaped: TOML allows a tab, JSON allows DEL. */
  predicate AllowedRaw(c: char, joinPairs: bool) {
    if joinPairs then c as int >= 0x20 else c == '\t' || (c as int >= 0x20 && c as int != 0x7F)
  }

  /** Read one character of a literal body; `joinPairs` is JSON's rule for surrogates. */
  function ReadChar(s: string, joinPairs: bool): (r: Option<(char, string)>)
    ensures r.Some? ==> |r.value.1| < |s|
  {
    if s == "" || s[0] == QUOTE then None
    else if s[0] != BACKSLASH then
      if AllowedRaw(s[0], joinPairs) then Some((s[0], s[1..])) else None
    else if |s| < 2 then None
    else if s[1] != 'u' then
      var e := SimpleEscape(s[1]);
      if e.Some? then Some((e.value, s[2..])) else None
    else if |s| < 6 then None
    else
      var hi := ReadHex4(s[2..]);
      if hi.None? then None
      else if hi.value < 0xD800 || 0xE000 <= hi.value then Some((hi.value as char, s[6..]))
      else if !joinPairs || hi.value >= 0xDC00 || |s| < 12 || s[6] != BACKSLASH || s[7] != 'u' then None
      else
        var lo := ReadHex4(s[8..]);
        if lo.None? || lo.value < 0xDC00 || 0xE000 <= lo.value then None
        else
          Some(((0x10000 + (hi.value - 0xD800) * 0x400 + (lo.value - 0xDC00)) as char, s[12..]))
  }

  /** Read a literal body up to and including its closing quote. */
  function ReadBody(s: string, joinPairs: bool): (r: Option<(string, string)>)
    ensures r.Some? ==> |r.value.1| < |s|
    decreases |s|
  {
    if s == "" then None
    else if s[0] == QUOTE then Some(("", s[1..]))
    else
      var c := ReadChar(s, joinPairs);
      if c.None? then None
      else
        var tail := ReadBody(c.value.1, joinPairs);
        if tail.None? then None else Some(([c.value.0] + tail.value.0, tail.value.1))
  }

  lemma HexDigitReadsBack(d: nat)
    requires d < 16
    ensures HexDigit(HexChar(d)) == Some(d)
  {
  }

  lemma HexDecomposition(n: nat)
    requires n < 0x10000
    ensures n == 0x1000 * (n / 0x1000) + 0x100 * (n / 0x100 % 0x10) + 0x10 * (n / 0x10 % 0x10) + n % 0x10
  {
    assert n == 0x10 * (n / 0x10) + n % 0x10;
    assert n / 0x10 / 0x10 == n / 0x100 && n / 0x100 / 0x10 == n / 0x1000;
  }

  lemma HexReadsBack(n: nat, rest: string)
    requires n < 0x10000
    ensures ReadHex4(Hex4(n) + rest) == Some(n)
  {
    HexDigitReadsBack(n / 0x1000);
    HexDigitReadsBack(n / 0x100 % 0x10);
    HexDigitReadsBack(n / 0x10 % 0x10);
    HexDigitReadsBack(n % 0x10);
    HexDecomposition(n);
  }

  lemma BasicEscapeReadsBack(c: char, rest: string, joinPairs: bool)
    requires InBasicPlane(c)
    ensures ReadChar(UnicodeEscape(c as int) + rest, joinPairs) == Some((c, rest))
  {
    var s := UnicodeEscape(c as int) + rest;
    HexReadsBack(c as int, rest);
    assert s[2..] == Hex4(c as int) + rest && s[6..] == rest;
  }

  /** The character whose halves `HighSurrogate` and `LowSurrogate` compute. */
  function Joined(hi: nat, lo: nat): char
    requires 0xD800 <= hi < 0xDC00 <= lo < 0xE000
  {
    (0x10000 + (hi - 0xD800) * 0x400 + (lo - 0xDC00)) as char
  }

  lemma SurrogatesJoin(c: char)
    requires !InBasicPlane(c)
    ensures Joined(HighSurrogate(c), LowSurrogate(c)) == c
  {
    var n := c as int - 0x10000;
    assert n == n / 0x400 * 0x400 + n % 0x400;
  }

  /** Two adjacent surrogate escapes are read as one character. */
  lemma PairIsRead(s: string, hi: nat, lo: nat)
    requires |s| >= 12 && s[0] == s[6] == BACKSLASH && s[1] == s[7] == 'u'
    requires 0xD800 <= hi < 0xDC00 <= lo < 0xE000
    requires ReadHex4(s[2..]) == Some(hi) && ReadHex4(s[8..]) == Some(lo)
    ensures ReadChar(s, true) == Some((Joined(hi, lo), s[12..]))
  {
    hide ReadHex4;
  }

  lemma UnicodeEscapeParts(n: nat, rest: string)
    requires n < 0x10000
    ensures var s := UnicodeEscape(n) + rest;
            s[0] == BACKSLASH && s[1] == 'u' && s[2..] == Hex4(n) + rest && s[6..] == rest
  {
    hide Hex4;
  }

  lemma PairReadsBack(c: char, rest: string)
    requires !InBasicPlane(c)
    ensures ReadChar(UnicodeEscape(HighSurrogate(c)) + UnicodeEscape(LowSurrogate(c)) + rest, true) == Some((c, rest))
  {
    hide *;
    var hi, lo := HighSurrogate(c), LowSurrogate(c);
    var tail := UnicodeEscape(lo) + rest;
    var s := UnicodeEscape(hi) + UnicodeEscape(lo) + rest;
    assert s == UnicodeEscape(hi) + tail;
    UnicodeEscapeParts(hi, tail);
    UnicodeEscapeParts(lo, rest);
    assert s[6..] == tail;
    assert s[6] == tail[0] && s[7] == tail[1] && s[8..] == tail[2..] && s[12..] == tail[6..];
    HexReadsBack(hi, tail);
    HexReadsBack(lo, rest);
    PairIsRead(s, hi, lo);
    SurrogatesJoin(c);
  }

  /** Every character of the basic plane but a few is written as itself or after a backslash. */
  lemma ShortEscapeReadsBack(c: char, rest: string, joinPairs: bool)
    requires |EscapeChar(c)| <= 2
    ensures ReadChar(EscapeChar(c) + rest, joinPairs) == Some((c, rest))
  {
    hide UnicodeEscape;
    hide ReadHex4;
    var e := EscapeChar(c);
    var s := e + rest;
    if |e| == 1 {
      assert s[0] == c && s[1..] == rest;
    } else {
      assert s[0] == BACKSLASH && s[1] == e[1] && s[2..] == rest;
    }
  }

  lemma LongEscape(c: char)
    ensures var e := EscapeChar(c);
            || |e| <= 2
            || (InBasicPlane(c) && e == UnicodeEscape(c as int))
            || (!InBasicPlane(c) && e == UnicodeEscape(HighSurrogate(c)) + UnicodeEscape(LowSurrogate(c)))
  {
    hide UnicodeEscape;
  }

  lemma EscapedCharReadsBack(c: char, rest: string, joinPairs: bool)
    requires joinPairs || InBasicPlane(c)
    ensures ReadChar(EscapeChar(c) + rest, joinPairs) == Some((c, rest))
  {
    hide *;
    LongEscape(c);
    if |EscapeChar(c)| <= 2 {
      ShortEscapeReadsBack(c, rest, joinPairs);
    } else if InBasicPlane(c) {
      BasicEscapeReadsBack(c, rest, joinPairs);
    } else {
      PairReadsBack(c, rest);
    }
  }

  /** A reader that does not join pairs refuses an escaped surrogate. */
  lemma LoneSurrogateRefused(s: string, hi: nat)
    requires |s| >= 6 && s[0] == BACKSLASH && s[1] == 'u'
    requires 0xD800 <= hi < 0xE000 && ReadHex4(s[2..]) == Some(hi)
    ensures ReadChar(s, false) == None
  {
    hide ReadHex4;
  }

  lemma SurrogateRefused(c: char, rest: string)
    requires !InBasicPlane(c)
    ensures ReadChar(EscapeChar(c) + rest, false) == None
    ensures ReadBody(EscapeChar(c) + rest, false) == None
  {
    var hi, lo := HighSurrogate(c), LowSurrogate(c);
    var s := EscapeChar(c) + rest;
    var tail := UnicodeEscape(lo) + rest;
    EscapeStartsPlain(c);
    LongEscape(c);
    assert |EscapeChar(c)| > 2;
    hide *;
    assert s == UnicodeEscape(hi) + tail;
    UnicodeEscapeParts(hi, tail);
    HexReadsBack(hi, tail);
    LoneSurrogateRefused(s, hi);
    assert s[0] == EscapeChar(c)[0];
    ReadBodyStep(s, false);
  }

  lemma ReadBodyStep(s: string, joinPairs: bool)
    requires s != "" && s[0] != QUOTE && ReadChar(s, joinPairs) == None
    ensures ReadBody(s, joinPairs) == None
  {
  }

  lemma EscapeStartsPlain(c: char)
    ensures EscapeChar(c)[0] != QUOTE
  {
  }

  /** One more character in front of a literal body. */
  lemma ReadBodyCons(c: char, tail: string, joinPairs: bool)
    requires ReadChar(EscapeChar(c) + tail, joinPairs) == Some((c, tail))
    ensures ReadBody(EscapeChar(c) + tail, joinPairs)
            == match ReadBody(tail, joinPairs)
               case Some(p) => Some(([c] + p.0, p.1))
               case None => None
  {
    hide ReadChar;
    var s := EscapeChar(c) + tail;
    assert s[0] == EscapeChar(c)[0];
    EscapeStartsPlain(c);
    hide EscapeChar;
  }

  lemma EscapeCons(t: string, rest: string)
    requires t != ""
    ensures Escape(t) + [QUOTE] + rest == EscapeChar(t[0]) + (Escape(t[1..]) + [QUOTE] + rest)
    ensures t == [t[0]] + t[1..]
  {
    hide EscapeChar;
    ConcatFourAssociates(EscapeChar(t[0]), Escape(t[1..]), [QUOTE], rest);
  }

  lemma ConcatFourAssociates(a: string, b: string, c: string, d: string)
    ensures a + b + c + d == a + (b + c + d)
  {
  }

  lemma EmptyBody(rest: string, joinPairs: bool)
    ensures ReadBody(Escape("") + [QUOTE] + rest, joinPairs) == Some(("", rest))
  {
    assert Escape("") + [QUOTE] + rest == [QUOTE] + rest;
  }

  /** A JSON reader takes a literal body back to its string. */
  lemma {:induction false} EscapedReadsBack(t: string, rest: string)
    ensures ReadBody(Escape(t) + [QUOTE] + rest, true) == Some((t, rest))
  {
    hide *;
    if t == "" {
      EmptyBody(rest, true);
    } else {
      var tail := Escape(t[1..]) + [QUOTE] + rest;
      EscapeCons(t, rest);
      EscapedCharReadsBack(t[0], tail, true);
      ReadBodyCons(t[0], tail, true);
      EscapedReadsBack(t[1..], rest);
    }
  }

  /** A TOML reader does so exactly for strings within the basic multilingual plane. */
  lemma {:induction false} EscapedReadsBackIffBasic(t: string, rest: string)
    ensures ReadBody(Escape(t) + [QUOTE] + rest, false)
            == if forall i | 0 <= i < |t| :: InBasicPlane(t[i]) then Some((t, rest)) else None
  {
    hide *;
    if t == "" {
      EmptyBody(rest, false);
    } else {
      var tail := Escape(t[1..]) + [QUOTE] + rest;
      EscapeCons(t, rest);
      EscapedReadsBackIffBasic(t[1..], rest);
      if InBasicPlane(t[0]) {
        EscapedCharReadsBack(t[0], tail, false);
        ReadBodyCons(t[0], tail, false);
        assert forall i | 1 <= i < |t| :: t[i] == t[1..][i - 1];
      } else {
        SurrogateRefused(t[0], tail);
      }
    }
  }

  // ---------------------------------------------------------------- ensure_ascii=False

  /** Without `ensure_ascii` only quotes, backslashes and control characters are escaped. */
  predicate IsKeptRaw(c: char) {
    c as int >= 0x20 && c != QUOTE && c != BACKSLASH
  }

  function EscapeRaw(s: string): string {
    if s == "" then "" else (if IsKeptRaw(s[0]) then [s[0]] else EscapeChar(s[0])) + EscapeRaw(s[1..])
  }

  function EscapeAs(s: string, ascii: bool): string {
    if ascii then Escape(s) else EscapeRaw(s)
  }

  function QuoteAs(s: string, ascii: bool): string {
    [QUOTE] + EscapeAs(s, ascii) + [QUOTE]
  }

  lemma RawCharReads(c: char, tail: string)
    requires IsKeptRaw(c)
    ensures ReadBody([c] + tail, true)
            == match ReadBody(tail, true)
               case Some(p) => Some(([c] + p.0, p.1))
               case None => None
  {
    assert ([c] + tail)[1..] == tail;
    assert ReadChar([c] + tail, true) == Some((c, tail));
    hide ReadChar;
  }

  lemma EscapeRawUnfold(t: string)
    requires t != ""
    ensures EscapeRaw(t) == (if IsKeptRaw(t[0]) then [t[0]] else EscapeChar(t[0])) + EscapeRaw(t[1..])
    ensures t == [t[0]] + t[1..]
  {
    hide EscapeChar;
    hide IsKeptRaw;
  }

  lemma EscapeRawCons(t: string, rest: string)
    requires t != ""
    ensures EscapeRaw(t) + [QUOTE] + rest
            == (if IsKeptRaw(t[0]) then [t[0]] else EscapeChar(t[0])) + (EscapeRaw(t[1..]) + [QUOTE] + rest)
    ensures t == [t[0]] + t[1..]
  {
    hide *;
    EscapeRawUnfold(t);
    ConcatFourAssociates(if IsKeptRaw(t[0]) then [t[0]] else EscapeChar(t[0]), EscapeRaw(t[1..]), [QUOTE], rest);
  }

  lemma EmptyRawBody(rest: string)
    ensures ReadBody(EscapeRaw("") + [QUOTE] + rest, true) == Some(("", rest))
  {
    assert EscapeRaw("") + [QUOTE] + rest == [QUOTE] + rest;
  }

  lemma {:induction false} EscapedRawReadsBack(t: string, rest: string)
    ensures ReadBody(EscapeRaw(t) + [QUOTE] + rest, true) == Some((t, rest))
  {
    hide *;
    if t == "" {
      EmptyRawBody(rest);
    } else {
      var tail := EscapeRaw(t[1..]) + [QUOTE] + rest;
      EscapeRawCons(t, rest);
      EscapedRawReadsBack(t[1..], rest);
      if IsKeptRaw(t[0]) {
        RawCharReads(t[0], tail);
      } else {
        EscapedCharReadsBack(t[0], tail, true);
        ReadBodyCons(t[0], tail, true);
      }
    }
  }

  /** A JSON reader takes a literal body back to its string, however it was escaped. */
  lemma EscapedAsReadsBack(t: string, rest: string, ascii: bool)
    ensures ReadBody(EscapeAs(t, ascii) + [QUOTE] + rest, true) == Some((t, rest))
  {
    hide ReadBody;
    hide Escape;
    hide EscapeRaw;
    if ascii { EscapedReadsBack(t, rest); } else { EscapedRawReadsBack(t, rest); }
  }
}
