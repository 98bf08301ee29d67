/** The compact sorted JSON text character by character: every value's text follows from these equations, in
    which brackets, commas, colons, words and escapes are written out. */
module JsonPrinting {
  import opened CodePointOrder
  import opened JsonText
  import Decimals
  import QuotedText

  /** A text without its first and last character. */
  function Inside(text: string): string
    requires |text| >= 2
  {
    text[1..|text| - 1]
  }

  lemma WordsPrinted(ascii: bool)
    ensures Print(JNull, ascii) == "null"
    ensures Print(JBool(true), ascii) == "true" && Print(JBool(false), ascii) == "false"
  {
  }

  lemma NumbersPrinted(n: nat, d: nat, x: FloatText, ascii: bool)
    requires d < 10
    ensures Print(JFloat(x), ascii) == x
    ensures Print(JInt(d), ascii) == ["0123456789"[d]]
    ensures n > 0 ==> Print(JInt(10 * n + d), ascii) == Print(JInt(n), ascii) + Print(JInt(d), ascii)
    ensures n > 0 ==> Print(JInt(0 - n), ascii) == "-" + Print(JInt(n), ascii)
  {
    hide *;
    PrintsNumber(JFloat(x), ascii);
    PrintsNumber(JInt(d), ascii);
    PrintsNumber(JInt(n), ascii);
    PrintsNumber(JInt(10 * n + d), ascii);
    PrintsNumber(JInt(0 - n), ascii);
    DecimalTexts(n, d);
  }

  lemma PrintsNumber(j: Json, ascii: bool)
    ensures j.JInt? ==> Print(j, ascii) == Decimals.IntText(j.n)
    ensures j.JFloat? ==> Print(j, ascii) == j.repr
  {
    hide Decimals.IntText;
  }

  lemma DecimalTexts(n: nat, d: nat)
    requires d < 10
    ensures Decimals.IntText(d) == ["0123456789"[d]]
    ensures n > 0 ==> Decimals.IntText(10 * n + d) == Decimals.IntText(n) + Decimals.IntText(d)
    ensures n > 0 ==> Decimals.IntText(0 - n) == "-" + Decimals.IntText(n)
  {
    if n > 0 { Decimals.DigitsSnoc(n, d); }
  }

  // ---------------------------------------------------------------- strings

  /** A backslash, `u` and the four lower-case hexadecimal digits of `n`. */
  predicate IsUnicodeEscape(s: string, n: nat) {
    var hex := "0123456789abcdef";
    |s| == 6 && s[..2] == "\\u" && n < 0x10000
    && s[2] == hex[n / 0x1000 % 0x10] && s[3] == hex[n / 0x100 % 0x10]
    && s[4] == hex[n / 0x10 % 0x10] && s[5] == hex[n % 0x10]
  }

  lemma HexCharIs(d: nat)
    requires d < 16
    ensures QuotedText.HexChar(d) == "0123456789abcdef"[d]
  {
  }

  lemma UnicodeEscapeIs(n: nat)
    requires n < 0x10000
    ensures IsUnicodeEscape(QuotedText.UnicodeEscape(n), n)
  {
    hide QuotedText.HexChar;
    HexCharIs(n / 0x1000);
    HexCharIs(n / 0x100 % 0x10);
    HexCharIs(n / 0x10 % 0x10);
    HexCharIs(n % 0x10);
    assert n / 0x1000 % 0x10 == n / 0x1000;
    assert [QuotedText.BACKSLASH, 'u'] == "\\u";
  }

  lemma EscapedOne(c: char, ascii: bool)
    ensures QuotedText.EscapeAs([c], ascii)
         == if !ascii && QuotedText.IsKeptRaw(c) then [c] else QuotedText.EscapeChar(c)
  {
    hide QuotedText.EscapeChar;
    assert [c][1..] == "";
    assert QuotedText.Escape([c]) == QuotedText.EscapeChar(c) + QuotedText.Escape("");
    assert QuotedText.EscapeRaw([c])
        == (if QuotedText.IsKeptRaw(c) then [c] else QuotedText.EscapeChar(c)) + QuotedText.EscapeRaw("");
  }

  lemma QuoteInside(s: string, ascii: bool)
    ensures Print(JString(s), ascii) == "\"" + QuotedText.EscapeAs(s, ascii) + "\""
    ensures Inside(Print(JString(s), ascii)) == QuotedText.EscapeAs(s, ascii)
  {
    hide QuotedText.EscapeAs;
  }

  lemma {:induction false} EscapedConcat(s: string, t: string, ascii: bool)
    ensures QuotedText.EscapeAs(s + t, ascii) == QuotedText.EscapeAs(s, ascii) + QuotedText.EscapeAs(t, ascii)
  {
    hide QuotedText.EscapeChar;
    if s == "" {
      assert s + t == t;
    } else {
      assert (s + t)[0] == s[0] && (s + t)[1..] == s[1..] + t;
      EscapedConcat(s[1..], t, ascii);
    }
  }

  /** A string is printed character by character between two quotes. */
  lemma StringsPrinted(s: string, t: string, ascii: bool)
    ensures Print(JString(""), ascii) == "\"\""
    ensures Print(JString(s + t), ascii)
         == "\"" + Inside(Print(JString(s), ascii)) + Inside(Print(JString(t), ascii)) + "\""
  {
    hide *;
    QuoteInside("", ascii);
    QuoteInside(s, ascii);
    QuoteInside(t, ascii);
    QuoteInside(s + t, ascii);
    EscapedConcat(s, t, ascii);
    NothingEscaped(ascii);
  }

  lemma NothingEscaped(ascii: bool)
    ensures QuotedText.EscapeAs("", ascii) == ""
  {
  }

  /** Which characters take a short escape, whatever `ensure_ascii` says. */
  lemma ShortEscapes(ascii: bool)
    ensures Inside(Print(JString("\""), ascii)) == "\\\"" && Inside(Print(JString("\\"), ascii)) == "\\\\"
    ensures Inside(Print(JString("\n"), ascii)) == "\\n" && Inside(Print(JString("\r"), ascii)) == "\\r"
    ensures Inside(Print(JString("\t"), ascii)) == "\\t"
    ensures Inside(Print(JString([0x08 as char]), ascii)) == "\\b"
    ensures Inside(Print(JString([0x0C as char]), ascii)) == "\\f"
  {
    ShortEscape('\"', ascii);
    ShortEscape('\\', ascii);
    ShortEscape('\n', ascii);
    ShortEscape('\r', ascii);
    ShortEscape('\t', ascii);
    ShortEscape(0x08 as char, ascii);
    ShortEscape(0x0C as char, ascii);
    hide Print;
  }

  lemma ShortEscape(c: char, ascii: bool)
    requires c in "\"\\\n\r\t" || c as int == 0x08 || c as int == 0x0C
    ensures Inside(Print(JString([c]), ascii))
         == ['\\', if c == '\"' then '\"' else if c == '\\' then '\\' else if c == '\n' then 'n'
                   else if c == '\r' then 'r' else if c == '\t' then 't' else if c as int == 0x08 then 'b' else 'f']
  {
    EscapedOne(c, ascii);
    QuoteInside([c], ascii);
  }

  /** Every other character: as itself from the blank to the tilde, else a lower-case escape, or two for the
      halves of a surrogate pair.  Without `ensure_ascii` only the other control characters are escaped. */
  lemma OtherCharacters(c: char, ascii: bool)
    requires c !in "\"\\\n\r\t" && c as int != 0x08 && c as int != 0x0C
    ensures var (e, n) := (Inside(Print(JString([c]), ascii)), c as int);
            && (0x20 <= n <= 0x7E || (!ascii && 0x20 <= n) ==> e == [c])
            && (n < 0x20 || (ascii && 0x7F <= n < 0x10000) ==> IsUnicodeEscape(e, n))
            && (ascii && 0x10000 <= n ==>
                  && |e| == 12
                  && IsUnicodeEscape(e[..6], 0xD800 + (n - 0x10000) / 0x400)
                  && IsUnicodeEscape(e[6..], 0xDC00 + (n - 0x10000) % 0x400))
  {
    hide *;
    EscapedOne(c, ascii);
    QuoteInside([c], ascii);
    KeptRawIs(c);
    EscapeOfOther(c);
  }

  lemma KeptRawIs(c: char)
    ensures QuotedText.IsKeptRaw(c) <==> c as int >= 0x20 && c !in "\"\\"
  {
  }

  lemma EscapeOfOther(c: char)
    requires c !in "\"\\\n\r\t" && c as int != 0x08 && c as int != 0x0C
    ensures var (e, n) := (QuotedText.EscapeChar(c), c as int);
            && (0x20 <= n <= 0x7E ==> e == [c])
            && (n < 0x20 || 0x7F <= n < 0x10000 ==> IsUnicodeEscape(e, n))
            && (0x10000 <= n ==>
                  && |e| == 12
                  && IsUnicodeEscape(e[..6], 0xD800 + (n - 0x10000) / 0x400)
                  && IsUnicodeEscape(e[6..], 0xDC00 + (n - 0x10000) % 0x400))
  {
    hide QuotedText.UnicodeEscape;
    hide IsUnicodeEscape;
    if c as int < 0x10000 {
      UnicodeEscapeIs(c as int);
    } else {
      var hi, lo := QuotedText.HighSurrogate(c), QuotedText.LowSurrogate(c);
      UnicodeEscapeIs(hi);
      UnicodeEscapeIs(lo);
      var pair := QuotedText.UnicodeEscape(hi) + QuotedText.UnicodeEscape(lo);
      assert pair[..6] == QuotedText.UnicodeEscape(hi) && pair[6..] == QuotedText.UnicodeEscape(lo);
    }
  }

  // ---------------------------------------------------------------- arrays

  lemma ArrayInside(items: seq<Json>, ascii: bool)
    ensures Print(JArray(items), ascii) == "[" + PrintItems(items, ascii) + "]"
    ensures Inside(Print(JArray(items), ascii)) == PrintItems(items, ascii)
  {
    hide PrintItems;
  }

  lemma {:induction false} ItemsConcat(a: seq<Json>, b: seq<Json>, ascii: bool)
    requires a != [] && b != []
    ensures PrintItems(a + b, ascii) == PrintItems(a, ascii) + "," + PrintItems(b, ascii)
  {
    hide *;
    UnfoldItemsOnce(a + b, ascii);
    UnfoldItemsOnce(a, ascii);
    assert (a + b)[0] == a[0] && (a + b)[1..] == a[1..] + b;
    if |a| == 1 {
      assert a[1..] + b == b;
    } else {
      ItemsConcat(a[1..], b, ascii);
    }
  }

  /** Items are printed in order with a comma and nothing else between two of them. */
  lemma ArraysPrinted(x: Json, a: seq<Json>, b: seq<Json>, ascii: bool)
    ensures Print(JArray([]), ascii) == "[]"
    ensures Print(JArray([x]), ascii) == "[" + Print(x, ascii) + "]"
    ensures a != [] && b != [] ==>
              Print(JArray(a + b), ascii)
              == "[" + Inside(Print(JArray(a), ascii)) + "," + Inside(Print(JArray(b), ascii)) + "]"
  {
    hide *;
    ArrayInside([], ascii);
    ArrayInside([x], ascii);
    ArrayInside(a, ascii);
    ArrayInside(b, ascii);
    ArrayInside(a + b, ascii);
    UnfoldItemsOnce([x], ascii);
    NoItems(ascii);
    if a != [] && b != [] { ItemsConcat(a, b, ascii); }
  }

  lemma NoItems(ascii: bool)
    ensures PrintItems([], ascii) == ""
  {
  }

  // ---------------------------------------------------------------- objects

  /** The first place where two texts differ decides, a text that has ended being below. */
  lemma {:induction false} LessAtFirstDifference(a: string, b: string, i: nat)
    requires i <= |a| && i <= |b| && a[..i] == b[..i] && (i == |a| || i == |b| || a[i] != b[i])
    ensures Less(a, b) <==> (i == |a| && i < |b|) || (i < |a| && i < |b| && a[i] < b[i])
    decreases i
  {
    if i > 0 {
      assert a[0] == a[..i][0] == b[..i][0] == b[0];
      assert a[1..][..i - 1] == a[..i][1..] && b[1..][..i - 1] == b[..i][1..];
      LessAtFirstDifference(a[1..], b[1..], i - 1);
      assert a == [a[0]] + a[1..] && b == [b[0]] + b[1..];
    }
  }

  lemma HasElement(ks: seq<string>)
    requires ks != []
    ensures exists k :: k in ks
  {
    assert ks[0] in ks;
  }

  lemma {:induction false} AscendingUnique(ks: seq<string>, ls: seq<string>)
    requires StrictlyAscending(ks) && StrictlyAscending(ls) && forall k :: k in ks <==> k in ls
    ensures ks == ls
  {
    if ls != [] { HasElement(ls); }
    if ks != [] {
      assert ks[0] in ls;
      assert ls[0] in ks;
      var i :| 0 <= i < |ls| && ls[i] == ks[0];
      var j :| 0 <= j < |ks| && ks[j] == ls[0];
      if ks[0] != ls[0] { LeqAntisymmetric(ks[0], ls[0]); }
      forall k ensures k in ks[1..] <==> k in ls[1..] {
        TailHolds(ks, k);
        TailHolds(ls, k);
      }
      AscendingUnique(ks[1..], ls[1..]);
      assert ks == [ks[0]] + ks[1..] && ls == [ls[0]] + ls[1..];
    }
  }

  lemma TailHolds(ks: seq<string>, k: string)
    requires ks != [] && StrictlyAscending(ks)
    ensures k in ks[1..] <==> k in ks && k != ks[0]
  {
    assert ks == [ks[0]] + ks[1..];
    if k in ks[1..] {
      var i :| 0 <= i < |ks[1..]| && ks[1..][i] == k;
      assert Less(ks[0], ks[i + 1]);
    }
  }

  /** Every key of `s` comes before every key of `t`. */
  predicate AllBefore(s: set<string>, t: set<string>) {
    forall k, l | k in s && l in t :: Less(k, l)
  }

  lemma SortedConcat(s: set<string>, t: set<string>)
    requires AllBefore(s, t)
    ensures SortedKeys(s + t) == SortedKeys(s) + SortedKeys(t)
  {
    hide Leq;
    var ks, ls := SortedKeys(s), SortedKeys(t);
    var all := ks + ls;
    forall i, j | 0 <= i < j < |all| ensures Less(all[i], all[j]) {
      if i < |ks| && |ks| <= j { assert all[i] in ks && all[j] in ls; }
    }
    AscendingUnique(SortedKeys(s + t), all);
  }

  lemma ObjectInside(j: Json, ascii: bool)
    requires j.JObject?
    ensures Print(j, ascii) == "{" + PrintMembers(j, SortedKeys(j.members.Keys), ascii) + "}"
    ensures Inside(Print(j, ascii)) == PrintMembers(j, SortedKeys(j.members.Keys), ascii)
  {
    hide PrintMembers;
  }

  lemma {:induction false} MembersAgree(i: Json, j: Json, keys: seq<string>, ascii: bool)
    requires i.JObject? && j.JObject?
    requires forall k | k in keys :: k in i.members && k in j.members && i.members[k] == j.members[k]
    ensures PrintMembers(i, keys, ascii) == PrintMembers(j, keys, ascii)
    decreases |keys|
  {
    hide *;
    if keys == [] {
      NoMembers(i, ascii);
      NoMembers(j, ascii);
    } else {
      UnfoldMembersOnce(i, keys, ascii);
      UnfoldMembersOnce(j, keys, ascii);
      UnfoldMember(i, keys[0], ascii);
      UnfoldMember(j, keys[0], ascii);
      if |keys| > 1 { MembersAgree(i, j, keys[1..], ascii); }
    }
  }

  lemma NoMembers(j: Json, ascii: bool)
    requires j.JObject?
    ensures PrintMembers(j, [], ascii) == ""
  {
  }

  lemma {:induction false} MembersConcat(j: Json, ks: seq<string>, ls: seq<string>, ascii: bool)
    requires j.JObject? && (forall k | k in ks :: k in j.members) && forall l | l in ls :: l in j.members
    requires ks != [] && ls != []
    ensures PrintMembers(j, ks + ls, ascii) == PrintMembers(j, ks, ascii) + "," + PrintMembers(j, ls, ascii)
    decreases |ks|
  {
    hide *;
    UnfoldMembersOnce(j, ks + ls, ascii);
    UnfoldMembersOnce(j, ks, ascii);
    assert (ks + ls)[0] == ks[0] && (ks + ls)[1..] == ks[1..] + ls;
    if |ks| == 1 {
      assert ks[1..] + ls == ls;
    } else {
      MembersConcat(j, ks[1..], ls, ascii);
    }
  }

  lemma OneMember(k: string, v: Json, ascii: bool)
    ensures Print(JObject(map[k := v]), ascii) == "{" + Print(JString(k), ascii) + ":" + Print(v, ascii) + "}"
  {
    hide *;
    var j := JObject(map[k := v]);
    ObjectInside(j, ascii);
    assert j.members.Keys == {k};
    assert forall l :: l in SortedKeys({k}) <==> l in [k];
    OnlyKey(k);
    UnfoldMembersOnce(j, [k], ascii);
    UnfoldMember(j, k, ascii);
    QuoteInside(k, ascii);
    QuoteAsIs(k, ascii);
  }

  lemma QuoteAsIs(k: string, ascii: bool)
    ensures QuotedText.QuoteAs(k, ascii) == "\"" + QuotedText.EscapeAs(k, ascii) + "\""
  {
    hide QuotedText.EscapeAs;
  }

  lemma OnlyKey(k: string)
    ensures SortedKeys({k}) == [k]
  {
    hide Leq;
    AscendingUnique(SortedKeys({k}), [k]);
  }

  /** Members are printed as `"key":value` in ascending order of their keys, a comma and nothing else between
      two of them. */
  lemma ObjectsPrinted(k: string, v: Json, m: map<string, Json>, n: map<string, Json>, ascii: bool)
    ensures Print(JObject(map[]), ascii) == "{}"
    ensures Print(JObject(map[k := v]), ascii) == "{" + Print(JString(k), ascii) + ":" + Print(v, ascii) + "}"
    ensures m != map[] && n != map[] && AllBefore(m.Keys, n.Keys) ==>
              Print(JObject(m + n), ascii)
              == "{" + Inside(Print(JObject(m), ascii)) + "," + Inside(Print(JObject(n), ascii)) + "}"
  {
    hide *;
    PrintEmptyMap(ascii);
    OneMember(k, v, ascii);
    if m != map[] && n != map[] && AllBefore(m.Keys, n.Keys) {
      TwoPartsPrinted(m, n, ascii);
    }
  }

  lemma TwoPartsPrinted(m: map<string, Json>, n: map<string, Json>, ascii: bool)
    requires m != map[] && n != map[] && AllBefore(m.Keys, n.Keys)
    ensures Print(JObject(m + n), ascii)
            == "{" + Inside(Print(JObject(m), ascii)) + "," + Inside(Print(JObject(n), ascii)) + "}"
  {
    hide *;
    var j := JObject(m + n);
    var ks, ls := SortedKeys(m.Keys), SortedKeys(n.Keys);
    ObjectInside(j, ascii);
    ObjectInside(JObject(m), ascii);
    ObjectInside(JObject(n), ascii);
    assert (m + n).Keys == m.Keys + n.Keys;
    SortedConcat(m.Keys, n.Keys);
    NotBeforeItself(m.Keys, n.Keys);
    MembersAgree(j, JObject(m), ks, ascii);
    MembersAgree(j, JObject(n), ls, ascii);
    KeysListed(m);
    KeysListed(n);
    MembersConcat(j, ks, ls, ascii);
  }

  lemma KeysListed(m: map<string, Json>)
    requires m != map[]
    ensures SortedKeys(m.Keys) != []
  {
    hide *;
    var k :| k in m;
    assert k in SortedKeys(m.Keys);
  }

  lemma NotBeforeItself(s: set<string>, t: set<string>)
    requires AllBefore(s, t)
    ensures s !! t
  {
    hide Leq;
  }
}
