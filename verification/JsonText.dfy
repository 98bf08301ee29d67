/** JSON values, the compact sorted printer `json.dumps(.., sort_keys=True, separators=(",", ":"))`, with
    `ensure_ascii` or without, and a reader that undoes it. */
module JsonText {
  import opened Wrappers
  import opened CodePointOrder
  import opened Scanning
  import Decimals
  import QuotedText

  predicate IsNumberStart(c: char) {
    Decimals.IsDigit(c) || c == '-' || c == 'N' || c == 'I'
  }

  predicate IsNumberChar(c: char) {
    Decimals.IsDigit(c) || c in "+-.eENaIinfty"
  }

  /** `repr` of a float, with JSON's spellings `NaN`, `Infinity` and `-Infinity`. */
  predicate IsFloatText(s: string) {
    IsRun(IsNumberStart, IsNumberChar, s) && !Decimals.IsIntText(s)
    && var t := if s[0] == '-' then s[1..] else s;
       t == "NaN" || t == "Infinity" || Decimals.IsFiniteFloat(t)
  }

  type FloatText = s: string | IsFloatText(s) witness "NaN"

  datatype Json =
    | JNull
    | JBool(b: bool)
    | JInt(n: int)
    | JFloat(repr: FloatText)
    | JString(s: string)
    | JArray(items: seq<Json>)
    | JObject(members: map<string, Json>)

  function Print(j: Json, ascii: bool := true): string
    decreases j, 1, 0
  {
    match j
    case JNull => "null"
    case JBool(b) => if b then "true" else "false"
    case JInt(n) => Decimals.IntText(n)
    case JFloat(r) => r
    case JString(s) => QuotedText.QuoteAs(s, ascii)
    case JArray(items) => "[" + PrintItems(items, ascii) + "]"
    case JObject(members) => "{" + PrintMembers(j, SortedKeys(members.Keys), ascii) + "}"
  }

  function PrintItems(items: seq<Json>, ascii: bool): string
    decreases items, 0, 0
  {
    if items == [] then ""
    else if |items| == 1 then Print(items[0], ascii)
    else Print(items[0], ascii) + "," + PrintItems(items[1..], ascii)
  }

  function PrintMember(j: Json, k: string, ascii: bool): string
    requires j.JObject? && k in j.members
    decreases j, 0, 0
  {
    QuotedText.QuoteAs(k, ascii) + ":" + Print(j.members[k], ascii)
  }

  function PrintMembers(j: Json, keys: seq<string>, ascii: bool): string
    requires j.JObject? && forall k | k in keys :: k in j.members
    decreases j, 0, |keys|
  {
    if keys == [] then ""
    else if |keys| == 1 then PrintMember(j, keys[0], ascii)
    else PrintMember(j, keys[0], ascii) + "," + PrintMembers(j, keys[1..], ascii)
  }

  // ---------------------------------------------------------------- reader

  function NumberMeant(t: string): (v: Option<Json>)
    ensures v.Some? ==> t != ""
  {
    if Decimals.IsIntText(t) then Some(JInt(Decimals.IntValue(t)))
    else if IsFloatText(t) then Some(JFloat(t))
    else None
  }

  function ReadNumber(s: string): (r: Option<(Json, string)>)
    ensures r.Some? ==> |r.value.1| < |s|
  {
    ReadRun(IsNumberChar, NumberMeant, s)
  }

  function ReadValue(s: string): (r: Option<(Json, string)>)
    ensures r.Some? ==> |r.value.1| < |s|
    decreases |s|, 1
  {
    if s == "" then None
    else if s[0] == 'n' then ReadWord(s, "null", JNull)
    else if s[0] == 't' then ReadWord(s, "true", JBool(true))
    else if s[0] == 'f' then ReadWord(s, "false", JBool(false))
    else if s[0] == QuotedText.QUOTE then
      var t := QuotedText.ReadBody(s[1..], true);
      if t.None? then None else Some((JString(t.value.0), t.value.1))
    else if s[0] == '[' then
      if |s| > 1 && s[1] == ']' then Some((JArray([]), s[2..]))
      else
        var t := ReadItems(s[1..]);
        if t.None? then None else Some((JArray(t.value.0), t.value.1))
    else if s[0] == '{' then
      if |s| > 1 && s[1] == '}' then Some((JObject(map[]), s[2..]))
      else
        var t := ReadMembers(s[1..]);
        if t.None? then None else Some((JObject(t.value.0), t.value.1))
    else ReadNumber(s)
  }

  /** Items up to and including the closing bracket. */
  function ReadItems(s: string): (r: Option<(seq<Json>, string)>)
    ensures r.Some? ==> |r.value.1| < |s|
    decreases |s|, 2
  {
    var v := ReadValue(s);
    if v.None? || v.value.1 == "" then None
    else if v.value.1[0] == ']' then Some(([v.value.0], v.value.1[1..]))
    else if v.value.1[0] != ',' then None
    else
      var tail := ReadItems(v.value.1[1..]);
      if tail.None? then None else Some(([v.value.0] + tail.value.0, tail.value.1))
  }

  function ReadMember(s: string): (r: Option<(string, Json, string)>)
    ensures r.Some? ==> |r.value.2| < |s|
    decreases |s|, 2
  {
    if s == "" || s[0] != QuotedText.QUOTE then None
    else
      var k := QuotedText.ReadBody(s[1..], true);
      if k.None? || k.value.1 == "" || k.value.1[0] != ':' then None
      else
        var v := ReadValue(k.value.1[1..]);
        if v.None? then None else Some((k.value.0, v.value.0, v.value.1))
  }

  /** Members up to and including the closing brace; a later duplicate wins, as in `json.loads`. */
  function ReadMembers(s: string): (r: Option<(map<string, Json>, string)>)
    ensures r.Some? ==> |r.value.1| < |s|
    decreases |s|, 3
  {
    var kv := ReadMember(s);
    if kv.None? || kv.value.2 == "" then None
    else if kv.value.2[0] == '}' then Some((map[kv.value.0 := kv.value.1], kv.value.2[1..]))
    else if kv.value.2[0] != ',' then None
    else
      var tail := ReadMembers(kv.value.2[1..]);
      if tail.None? then None
      else Some((map[kv.value.0 := kv.value.1] + tail.value.0, tail.value.1))
  }

  // ---------------------------------------------------------------- printing then reading

  lemma IntTextIsNumber(n: int)
    ensures IsRun(IsNumberStart, IsNumberChar, Decimals.IntText(n))
  {
    Decimals.IntTextIsRun(IsNumberStart, IsNumberChar, n);
  }

  lemma NumberReadsBack(t: string, v: Json, rest: string)
    requires IsRun(IsNumberStart, IsNumberChar, t) && Ends(IsNumberChar, rest) && NumberMeant(t) == Some(v)
    ensures ReadValue(t + rest) == Some((v, rest))
  {
    hide NumberMeant;
    hide IsNumberStart;
    hide IsNumberChar;
    hide ReadValue;
    RunReadsBack(IsNumberChar, NumberMeant, t, rest);
    assert (t + rest)[0] == t[0];
    StartsNumber(t + rest);
  }

  lemma StartsNumber(s: string)
    requires s != "" && IsNumberStart(s[0])
    ensures ReadValue(s) == ReadNumber(s)
  {
    hide ReadNumber;
    hide ReadItems;
    hide ReadMembers;
    hide ReadWord;
    hide QuotedText.ReadBody;
  }

  lemma StringReadsBack(t: string, rest: string, ascii: bool)
    ensures ReadValue(QuotedText.QuoteAs(t, ascii) + rest) == Some((JString(t), rest))
  {
    hide QuotedText.EscapeAs;
    hide QuotedText.ReadBody;
    var s := QuotedText.QuoteAs(t, ascii) + rest;
    QuotedText.EscapedAsReadsBack(t, rest, ascii);
    assert s[0] == QuotedText.QUOTE;
    assert s[1..] == QuotedText.EscapeAs(t, ascii) + [QuotedText.QUOTE] + rest;
  }

  lemma ReadBracketed(s: string)
    requires |s| > 1 && s[1] != ']' && s[1] != '}'
    ensures s[0] == '[' ==>
              ReadValue(s) == match ReadItems(s[1..]) case None => None case Some(t) => Some((JArray(t.0), t.1))
    ensures s[0] == '{' ==>
              ReadValue(s) == match ReadMembers(s[1..]) case None => None case Some(t) => Some((JObject(t.0), t.1))
  {
    hide ReadItems;
    hide ReadMembers;
    hide ReadNumber;
    hide ReadWord;
    hide QuotedText.ReadBody;
  }

  lemma ArrayReadsBack(text: string, items: seq<Json>, rest: string)
    requires text != "" && text[0] != ']' && text[0] != '}' && ReadItems(text + "]" + rest) == Some((items, rest))
    ensures ReadValue("[" + text + "]" + rest) == Some((JArray(items), rest))
  {
    hide *;
    var s := "[" + text + "]" + rest;
    assert s[0] == '[' && s[1] == text[0] && s[1..] == text + "]" + rest;
    ReadBracketed(s);
  }

  lemma ObjectReadsBack(text: string, members: map<string, Json>, rest: string)
    requires text != "" && text[0] != ']' && text[0] != '}' && ReadMembers(text + "}" + rest) == Some((members, rest))
    ensures ReadValue("{" + text + "}" + rest) == Some((JObject(members), rest))
  {
    hide *;
    var s := "{" + text + "}" + rest;
    assert s[0] == '{' && s[1] == text[0] && s[1..] == text + "}" + rest;
    ReadBracketed(s);
  }

  lemma EmptyReadsBack(rest: string)
    ensures ReadValue("[]" + rest) == Some((JArray([]), rest))
    ensures ReadValue("{}" + rest) == Some((JObject(map[]), rest))
  {
    hide ReadMembers;
    hide ReadItems;
    assert ("[]" + rest)[2..] == rest && ("{}" + rest)[2..] == rest;
  }

  /** A JSON reader takes every printed value back, whatever text follows that cannot extend it. */
  lemma {:induction false} PrintReadsBack(j: Json, rest: string, ascii: bool)
    requires Ends(IsNumberChar, rest)
    ensures ReadValue(Print(j, ascii) + rest) == Some((j, rest))
    decreases j, 2
  {
    match j
    case JNull => WordReadsBack("null", j, rest);
    case JBool(b) => WordReadsBack(if b then "true" else "false", j, rest);
    case JInt(n) =>
      IntTextIsNumber(n);
      Decimals.IntReadsBack(n);
      NumberReadsBack(Decimals.IntText(n), j, rest);
    case JFloat(r) => NumberReadsBack(r, j, rest);
    case JString(t) => StringReadsBack(t, rest, ascii);
    case JArray(items) =>
      if items == [] {
        EmptyReadsBack(rest);
        assert Print(j, ascii) == "[]";
      } else {
        ItemsReadBack(items, rest, ascii);
        PrintStart(items[0], ascii);
        ArrayReadsBack(PrintItems(items, ascii), items, rest);
      }
    case JObject(_) => MapReadsBack(j, rest, ascii);
  }

  lemma PrintEmptyMap(ascii: bool)
    ensures Print(JObject(map[]), ascii) == "{}"
  {
  }

  lemma {:induction false} MapReadsBack(j: Json, rest: string, ascii: bool)
    requires j.JObject? && Ends(IsNumberChar, rest)
    ensures ReadValue(Print(j, ascii) + rest) == Some((j, rest))
    decreases j, 1
  {
    hide ReadValue;
    hide ReadMembers;
    hide PrintMembers;
    var keys := SortedKeys(j.members.Keys);
    if keys == [] {
      assert j.members.Keys == {} && j == JObject(map[]);
      PrintEmptyMap(ascii);
      EmptyReadsBack(rest);
    } else {
      MembersReadBack(j, keys, rest, ascii);
      MembersStart(j, keys, ascii);
      assert (map k | k in keys :: j.members[k]) == j.members;
      ObjectReadsBack(PrintMembers(j, keys, ascii), j.members, rest);
    }
  }

  /** What a printed value can begin with: never a closing bracket. */
  lemma PrintStart(j: Json, ascii: bool)
    ensures Print(j, ascii) != "" && Print(j, ascii)[0] != ']' && Print(j, ascii)[0] != '}'
  {
    if j.JInt? { IntTextIsNumber(j.n); }
  }

  lemma MembersStart(j: Json, keys: seq<string>, ascii: bool)
    requires j.JObject? && keys != [] && forall k | k in keys :: k in j.members
    ensures PrintMembers(j, keys, ascii) != ""
    ensures PrintMembers(j, keys, ascii)[0] != ']' && PrintMembers(j, keys, ascii)[0] != '}'
  {
  }

  lemma UnfoldItems(items: seq<Json>, rest: string, ascii: bool)
    requires items != []
    ensures PrintItems(items, ascii) + "]" + rest
         == Print(items[0], ascii)
            + if |items| == 1 then "]" + rest else "," + (PrintItems(items[1..], ascii) + "]" + rest)
  {
    hide *;
    UnfoldItemsOnce(items, ascii);
    var item := Print(items[0], ascii);
    if |items| == 1 {
      Regroup(item, "]", rest);
    } else {
      var more := PrintItems(items[1..], ascii);
      Regroup(item + ",", more, "]");
      Regroup(item + ",", more + "]", rest);
      Regroup(item, ",", more + "]" + rest);
    }
  }

  lemma UnfoldItemsOnce(items: seq<Json>, ascii: bool)
    requires items != []
    ensures PrintItems(items, ascii)
         == if |items| == 1 then Print(items[0], ascii)
            else Print(items[0], ascii) + "," + PrintItems(items[1..], ascii)
  {
    hide Print;
  }

  lemma ItemsStep(text: string, v: Json, tail: string)
    requires tail != "" && ReadValue(text + tail) == Some((v, tail))
    ensures tail[0] == ']' ==> ReadItems(text + tail) == Some(([v], tail[1..]))
    ensures tail[0] == ',' ==>
              var more := ReadItems(tail[1..]);
              more.Some? ==> ReadItems(text + tail) == Some(([v] + more.value.0, more.value.1))
  {
    hide ReadValue;
  }

  lemma {:induction false} ItemsReadBack(items: seq<Json>, rest: string, ascii: bool)
    requires items != []
    ensures ReadItems(PrintItems(items, ascii) + "]" + rest) == Some((items, rest))
    decreases items, 0, 0
  {
    hide *;
    UnfoldItems(items, rest, ascii);
    if |items| == 1 {
      var tail := "]" + rest;
      EndsIs(tail);
      assert tail[1..] == rest;
      PrintReadsBack(items[0], tail, ascii);
      ItemsStep(Print(items[0], ascii), items[0], tail);
      assert items == [items[0]];
    } else {
      var tail := "," + (PrintItems(items[1..], ascii) + "]" + rest);
      EndsIs(tail);
      assert tail[1..] == PrintItems(items[1..], ascii) + "]" + rest;
      PrintReadsBack(items[0], tail, ascii);
      ItemsReadBack(items[1..], rest, ascii);
      ItemsStep(Print(items[0], ascii), items[0], tail);
      assert items == [items[0]] + items[1..];
    }
  }

  lemma QuotedThen(k: string, tail: string, ascii: bool)
    ensures QuotedText.QuoteAs(k, ascii) + tail
            == [QuotedText.QUOTE] + (QuotedText.EscapeAs(k, ascii) + [QuotedText.QUOTE] + tail)
  {
  }

  /** A quoted key, a colon and a value. */
  lemma MemberIsRead(body: string, k: string, text: string, v: Json, rest: string)
    requires QuotedText.ReadBody(body, true) == Some((k, [':'] + text)) && ReadValue(text) == Some((v, rest))
    ensures ReadMember([QuotedText.QUOTE] + body) == Some((k, v, rest))
  {
    hide QuotedText.ReadBody;
    hide ReadValue;
    assert ([QuotedText.QUOTE] + body)[1..] == body && ([':'] + text)[1..] == text;
  }

  lemma ColonThen(q: string, text: string, rest: string)
    ensures q + ":" + text + rest == q + ([':'] + (text + rest))
  {
  }

  lemma MemberReadsBack(k: string, text: string, v: Json, rest: string, ascii: bool)
    requires ReadValue(text + rest) == Some((v, rest))
    ensures ReadMember(QuotedText.QuoteAs(k, ascii) + ":" + text + rest) == Some((k, v, rest))
  {
    hide *;
    var tail := [':'] + (text + rest);
    ColonThen(QuotedText.QuoteAs(k, ascii), text, rest);
    QuotedThen(k, tail, ascii);
    QuotedText.EscapedAsReadsBack(k, tail, ascii);
    MemberIsRead(QuotedText.EscapeAs(k, ascii) + [QuotedText.QUOTE] + tail, k, text + rest, v, rest);
  }

  lemma MembersStep(member: string, k: string, v: Json, tail: string)
    requires tail != "" && ReadMember(member + tail) == Some((k, v, tail))
    ensures tail[0] == '}' ==> ReadMembers(member + tail) == Some((map[k := v], tail[1..]))
    ensures tail[0] == ',' ==>
              var more := ReadMembers(tail[1..]);
              more.Some? ==> ReadMembers(member + tail) == Some((map[k := v] + more.value.0, more.value.1))
  {
  }

  lemma UnfoldMembers(j: Json, keys: seq<string>, rest: string, ascii: bool)
    requires j.JObject? && keys != [] && forall k | k in keys :: k in j.members
    ensures var (k, text) := (keys[0], PrintMembers(j, keys, ascii) + "}" + rest);
            var tail := if |keys| == 1 then "}" + rest else "," + (PrintMembers(j, keys[1..], ascii) + "}" + rest);
            && text == PrintMember(j, k, ascii) + tail
            && text == QuotedText.QuoteAs(k, ascii) + ":" + Print(j.members[k], ascii) + tail
  {
    hide *;
    UnfoldMember(j, keys[0], ascii);
    UnfoldMembersOnce(j, keys, ascii);
    var member := PrintMember(j, keys[0], ascii);
    if |keys| == 1 {
      Regroup(member, "}", rest);
    } else {
      var more := PrintMembers(j, keys[1..], ascii);
      Regroup(member + ",", more, "}");
      Regroup(member + ",", more + "}", rest);
      Regroup(member, ",", more + "}" + rest);
    }
  }

  lemma Regroup(a: string, b: string, c: string)
    ensures a + b + c == a + (b + c)
  {
  }

  lemma UnfoldMember(j: Json, k: string, ascii: bool)
    requires j.JObject? && k in j.members
    ensures PrintMember(j, k, ascii) == QuotedText.QuoteAs(k, ascii) + ":" + Print(j.members[k], ascii)
  {
    hide QuotedText.QuoteAs;
    hide Print;
  }

  lemma UnfoldMembersOnce(j: Json, keys: seq<string>, ascii: bool)
    requires j.JObject? && keys != [] && forall k | k in keys :: k in j.members
    ensures PrintMembers(j, keys, ascii)
         == if |keys| == 1 then PrintMember(j, keys[0], ascii)
            else PrintMember(j, keys[0], ascii) + "," + PrintMembers(j, keys[1..], ascii)
  {
    hide PrintMember;
  }

  lemma EndsIs(rest: string)
    requires rest != "" && rest[0] in "}],"
    ensures Ends(IsNumberChar, rest)
  {
  }

  lemma {:induction false} MembersReadBack(j: Json, keys: seq<string>, rest: string, ascii: bool)
    requires j.JObject? && keys != [] && forall k | k in keys :: k in j.members
    ensures ReadMembers(PrintMembers(j, keys, ascii) + "}" + rest) == Some((map k | k in keys :: j.members[k], rest))
    decreases j, 0, |keys|
  {
    hide *;
    var k := keys[0];
    var v := j.members[k];
    var member := PrintMember(j, k, ascii);
    var text := PrintMembers(j, keys, ascii) + "}" + rest;
    var tail := if |keys| == 1 then "}" + rest else "," + (PrintMembers(j, keys[1..], ascii) + "}" + rest);
    UnfoldMembers(j, keys, rest, ascii);
    EndsIs(tail);
    PrintReadsBack(v, tail, ascii);
    MemberReadsBack(k, Print(v, ascii), v, tail, ascii);
    MembersStep(member, k, v, tail);
    if |keys| == 1 {
      assert tail[1..] == rest;
      assert (map x | x in keys :: j.members[x]) == map[k := v];
    } else {
      assert tail[1..] == PrintMembers(j, keys[1..], ascii) + "}" + rest;
      MembersReadBack(j, keys[1..], rest, ascii);
      var m := map x | x in keys[1..] :: j.members[x];
      assert (map x | x in keys :: j.members[x]) == map[k := v] + m;
    }
  }

  /** The compact sorted text determines the JSON value. */
  lemma PrintInjective(a: Json, b: Json, ascii: bool := true)
    requires Print(a, ascii) == Print(b, ascii)
    ensures a == b
  {
    PrintReadsBack(a, "", ascii);
    PrintReadsBack(b, "", ascii);
    assert Print(a, ascii) + "" == Print(a, ascii) && Print(b, ascii) + "" == Print(b, ascii);
  }
}
