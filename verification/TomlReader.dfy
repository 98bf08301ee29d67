/** A TOML reader for keys and values on one line: bare, quoted, literal and dotted keys, basic and literal
    strings, decimal integers, floats, booleans, arrays and inline tables.  And what it makes of printed
    values. */
module TomlReader {
  import opened Wrappers
  import opened ConfigOverlay
  import opened Scanning
  import opened TomlRules
  import opened TomlText
  import Decimals
  import QuotedText

  const APOSTROPHE: char := '\''

  predicate IsBlank(c: char) {
    c == ' ' || c == '\t'
  }

  function SkipBlanks(s: string): (t: string)
    ensures |t| <= |s|
    ensures t == "" || !IsBlank(t[0])
  {
    if s == "" || !IsBlank(s[0]) then s else SkipBlanks(s[1..])
  }

  /** What a literal string and a comment may hold. */
  predicate IsPlain(c: char) {
    QuotedText.AllowedRaw(c, false)
  }

  predicate IsLiteralChar(c: char) {
    c != APOSTROPHE && IsPlain(c)
  }

  /** A literal string's body up to and including its closing apostrophe. */
  function ReadLiteral(s: string): (r: Option<(string, string)>)
    ensures r.Some? ==> |r.value.1| < |s|
  {
    var n := RunLength(IsLiteralChar, s);
    if n < |s| && s[n] == APOSTROPHE then Some((s[..n], s[n + 1..])) else None
  }

  // ---------------------------------------------------------------- keys

  function ReadKey(s: string): (r: Option<(string, string)>)
    ensures r.Some? ==> |r.value.1| < |s|
  {
    if s == "" then None
    else if s[0] == QuotedText.QUOTE then QuotedText.ReadBody(s[1..], false)
    else if s[0] == APOSTROPHE then ReadLiteral(s[1..])
    else
      var n := RunLength(IsBareChar, s);
      if n == 0 then None else Some((s[..n], s[n..]))
  }

  /** A key, dotted or not, with blanks allowed around its parts. */
  function ReadKeys(s: string): (r: Option<(Path, string)>)
    ensures r.Some? ==> r.value.0 != [] && |r.value.1| < |s| && (r.value.1 == "" || !IsBlank(r.value.1[0]))
    decreases |s|
  {
    var k := ReadKey(SkipBlanks(s));
    if k.None? then None
    else
      var u := SkipBlanks(k.value.1);
      if u != "" && u[0] == '.' then
        match ReadKeys(u[1..])
        case None => None
        case Some((more, after)) => Some(([k.value.0] + more, after))
      else Some(([k.value.0], u))
  }

  // ---------------------------------------------------------------- values

  function NumberMeant(t: string): (v: Option<Value>)
    ensures v.Some? ==> t != ""
  {
    if Decimals.IsIntText(t) && Decimals.NoLeadingZero(t) then Some(Int(Decimals.IntValue(t)))
    else if IsFloatText(t) then Some(Float(t))
    else None
  }

  function ReadNumber(s: string): (r: Option<(Value, string)>)
    ensures r.Some? ==> |r.value.1| < |s|
  {
    ReadRun(IsNumberChar, NumberMeant, s)
  }

  function AsString(body: Option<(string, string)>): Option<(Value, string)> {
    match body
    case None => None
    case Some((t, rest)) => Some((Str(t), rest))
  }

  function ReadValue(s: string): (r: Option<(Value, string)>)
    ensures r.Some? ==> |r.value.1| < |s|
    decreases |s|, 1
  {
    var t := SkipBlanks(s);
    if t == "" then None
    else if t[0] == 't' then ReadWord(t, "true", Bool(true))
    else if t[0] == 'f' then ReadWord(t, "false", Bool(false))
    else if t[0] == QuotedText.QUOTE then AsString(QuotedText.ReadBody(t[1..], false))
    else if t[0] == APOSTROPHE then AsString(ReadLiteral(t[1..]))
    else if t[0] == '[' then
      var items := ReadItems(t[1..]);
      if items.None? then None else Some((Array(items.value.0), items.value.1))
    else if t[0] == '{' then ReadInline(t[1..])
    else ReadNumber(t)
  }

  /** Items up to the closing bracket; a trailing comma is allowed. */
  function ReadItems(s: string): (r: Option<(seq<Value>, string)>)
    ensures r.Some? ==> |r.value.1| < |s|
    decreases |s|, 2
  {
    var t := SkipBlanks(s);
    if t == "" then None
    else if t[0] == ']' then Some(([], t[1..]))
    else
      var v := ReadValue(t);
      if v.None? then None
      else
        var u := SkipBlanks(v.value.1);
        if u == "" then None
        else if u[0] == ']' then Some(([v.value.0], u[1..]))
        else if u[0] != ',' then None
        else
          var more := ReadItems(u[1..]);
          if more.None? then None else Some(([v.value.0] + more.value.0, more.value.1))
  }

  function ReadPair(s: string): (r: Option<(Parsed, string)>)
    ensures r.Some? ==> |r.value.1| < |s| && r.value.0.PKeyValue?
    decreases |s|, 2
  {
    var p := ReadKeys(s);
    if p.None? || p.value.1 == "" || p.value.1[0] != '=' then None
    else
      var v := ReadValue(p.value.1[1..]);
      if v.None? then None else Some((PKeyValue(p.value.0, v.value.0), v.value.1))
  }

  /** Pairs of an inline table up to its closing brace; no trailing comma. */
  function ReadPairs(s: string): (r: Option<(seq<Parsed>, string)>)
    ensures r.Some? ==> |r.value.1| < |s|
    decreases |s|, 3
  {
    var kv := ReadPair(s);
    if kv.None? then None
    else
      var u := SkipBlanks(kv.value.1);
      if u == "" then None
      else if u[0] == '}' then Some(([kv.value.0], u[1..]))
      else if u[0] != ',' then None
      else
        var more := ReadPairs(u[1..]);
        if more.None? then None else Some(([kv.value.0] + more.value.0, more.value.1))
  }

  /** An inline table: its pairs under the document rules, on their own. */
  function ReadInline(s: string): (r: Option<(Value, string)>)
    ensures r.Some? ==> |r.value.1| < |s|
    decreases |s|, 4
  {
    var t := SkipBlanks(s);
    if t != "" && t[0] == '}' then Some((Table(map[]), t[1..]))
    else
      match ReadPairs(t)
      case None => None
      case Some((pairs, after)) =>
        match Interpret(pairs)
        case None => None
        case Some(v) => Some((v, after))
  }

  // ---------------------------------------------------------------- printed pairs under the document rules

  function PairsOf(entries: seq<Entry>): (ps: seq<Parsed>)
    ensures |ps| == |entries|
    ensures forall i | 0 <= i < |entries| :: ps[i] == PKeyValue([entries[i].key], Meaning(entries[i].value))
  {
    if entries == [] then []
    else [PKeyValue([entries[0].key], Meaning(entries[0].value))] + PairsOf(entries[1..])
  }

  predicate NoTables(entries: seq<Entry>) {
    forall i | 0 <= i < |entries| :: !entries[i].value.DTable?
  }

  predicate FreshKeys(entries: seq<Entry>, m: map<string, Value>) {
    forall i | 0 <= i < |entries| :: entries[i].key !in m
  }

  /** Pairs with new keys fill the current table with what the entries mean. */
  lemma {:induction false} PairsRun(entries: seq<Entry>, st: State, m: map<string, Value>)
    requires At(st.root, st.current) == Some(Table(m)) && !Inside(st.current, st.closed)
    requires KeysDistinct(entries) && FreshKeys(entries, m)
    ensures var r := Run(PairsOf(entries), st);
            && r.Some? && r.value == st.(root := Put(st.root, st.current, Table(m + MeaningEntries(entries))),
                                         closed := r.value.closed)
            && (NoTables(entries) ==> r.value.closed == st.closed)
  {
    if entries == [] {
      PutSame(st.root, st.current);
      assert m + map[] == m;
    } else {
      hide Meaning;
      hide Step;
      hide At;
      hide Put;
      hide Inside;
      var e, more := entries[0], entries[1..];
      var x := Meaning(e.value);
      var m1 := m[e.key := x];
      StepPlainKey(e.key, x, st, m);
      var next := Step(PKeyValue([e.key], x), st).value;
      StillOutside(st.current, e.key, st.closed);
      PutThenAt(st.root, st.current, Table(m1));
      forall i | 0 <= i < |more| ensures more[i].key !in m1 && more[i] == entries[i + 1] {
      }
      PairsRun(more, next, m1);
      PutTwice(st.root, st.current, Table(m1), Table(m1 + MeaningEntries(more)));
      assert PairsOf(entries)[1..] == PairsOf(more);
      MeaningTableIff(e.value);
      UnfoldEntries(entries);
      hide MeaningEntries;
      MapExtend(m, e.key, x, MeaningEntries(more));
    }
  }

  lemma StillOutside(path: Path, k: string, closed: set<Path>)
    requires !Inside(path, closed)
    ensures !Inside(path, closed + {path + [k]}) && closed + {} == closed
  {
    forall n | 0 < n <= |path| ensures path[..n] !in closed + {path + [k]} {
      assert |path[..n]| < |path + [k]|;
    }
  }

  lemma MeaningTableIff(d: Doc)
    ensures Meaning(d).Table? <==> d.DTable?
  {
  }

  lemma MapExtend(m: map<string, Value>, k: string, x: Value, t: map<string, Value>)
    ensures m[k := x] + t == m + (map[k := x] + t)
  {
  }

  /** Interpreted on their own they are the table the entries mean. */
  lemma PairsMeanTable(entries: seq<Entry>)
    requires KeysDistinct(entries)
    ensures Interpret(PairsOf(entries)) == Some(Table(MeaningEntries(entries)))
  {
    hide MeaningEntries;
    PairsRun(entries, START, map[]);
    assert map[] + MeaningEntries(entries) == MeaningEntries(entries);
  }

  // ---------------------------------------------------------------- printing then reading a value

  /** What reading a printed value must give: the value, or a refusal when a string in it has a character
      outside the basic plane, because the printer writes that as two surrogate escapes. */
  function Reading(d: Doc, rest: string): Option<(Value, string)> {
    if Holds(BasicStrings, d) then Some((Meaning(d), rest)) else None
  }

  function ReadingItems(items: seq<Doc>, rest: string): Option<(seq<Value>, string)> {
    if HoldsAll(BasicStrings, items) then Some((MeaningItems(items), rest)) else None
  }

  function ReadingPairs(entries: seq<Entry>, rest: string): Option<(seq<Parsed>, string)> {
    if HoldsEntries(BasicStrings, entries) then Some((PairsOf(entries), rest)) else None
  }

  lemma IntTextIsNumber(n: int)
    ensures IsRun(IsNumberStart, IsNumberChar, Decimals.IntText(n))
  {
    Decimals.IntTextIsRun(IsNumberStart, IsNumberChar, n);
  }

  lemma FloatIsNumber(r: FloatText)
    ensures IsRun(IsNumberStart, IsNumberChar, r) && NumberMeant(r) == Some(Float(r))
  {
  }

  lemma NumberReadsBack(t: string, v: Value, rest: string)
    requires IsRun(IsNumberStart, IsNumberChar, t) && Ends(IsNumberChar, rest) && NumberMeant(t) == Some(v)
    ensures ReadValue(t + rest) == Some((v, rest))
  {
    hide NumberMeant;
    hide IsNumberStart;
    hide IsNumberChar;
    hide ReadValue;
    RunReadsBack(IsNumberChar, NumberMeant, t, rest);
    assert (t + rest)[0] == t[0];
    StartsNumber(t + rest);
  }

  lemma ReadNumberIs(s: string)
    ensures var t := s[..RunLength(IsNumberChar, s)];
            ReadNumber(s) == match NumberMeant(t) case None => None case Some(v) => Some((v, s[|t|..]))
  {
    hide NumberMeant;
    hide RunLength;
  }

  lemma NumberMeantIs(t: string)
    ensures NumberMeant(t) == if Decimals.IsIntText(t) && Decimals.NoLeadingZero(t) then Some(Int(Decimals.IntValue(t)))
                              else if IsFloatText(t) then Some(Float(t))
                              else None
  {
    hide Decimals.IsIntText;
    hide Decimals.NoLeadingZero;
    hide Decimals.IntValue;
    hide IsFloatText;
  }

  lemma StartsNumber(s: string)
    requires s != "" && IsNumberStart(s[0])
    ensures ReadValue(s) == ReadNumber(s)
  {
    hide ReadNumber;
    hide ReadItems;
    hide ReadInline;
    hide ReadLiteral;
    assert SkipBlanks(s) == s;
  }

  lemma WordReads(b: bool, rest: string)
    ensures ReadValue((if b then "true" else "false") + rest) == Some((Bool(b), rest))
  {
    hide ReadItems;
    hide ReadInline;
    hide ReadNumber;
    hide ReadLiteral;
    WordReadsBack("true", Bool(true), rest);
    WordReadsBack("false", Bool(false), rest);
  }

  lemma StringReads(t: string, rest: string)
    ensures ReadValue(QuotedText.Quote(t) + rest) == if IsBasic(t) then Some((Str(t), rest)) else None
  {
    hide QuotedText.Escape;
    hide QuotedText.ReadBody;
    hide ReadItems;
    hide ReadInline;
    hide ReadNumber;
    var s := QuotedText.Quote(t) + rest;
    QuotedText.EscapedReadsBackIffBasic(t, rest);
    assert s[0] == QuotedText.QUOTE && SkipBlanks(s) == s;
    assert s[1..] == QuotedText.Escape(t) + [QuotedText.QUOTE] + rest;
  }

  lemma BracketReads(text: string, rest: string)
    ensures ReadValue("[" + text + "]" + rest)
            == match ReadItems(text + "]" + rest)
               case None => None
               case Some((items, after)) => Some((Array(items), after))
  {
    hide ReadItems;
    hide ReadInline;
    hide ReadNumber;
    var s := "[" + text + "]" + rest;
    assert s[1..] == text + "]" + rest && SkipBlanks(s) == s;
  }

  lemma BraceReads(text: string, rest: string)
    ensures ReadValue("{ " + text + " }" + rest) == ReadInline(" " + text + " }" + rest)
  {
    hide ReadItems;
    hide ReadInline;
    hide ReadNumber;
    var s := "{ " + text + " }" + rest;
    assert s[1..] == " " + text + " }" + rest && SkipBlanks(s) == s;
  }

  lemma SkipOne(s: string)
    ensures SkipBlanks(" " + s) == SkipBlanks(s)
  {
    assert (" " + s)[1..] == s;
  }

  /** Readers of values, items, keys and pairs skip a leading blank. */
  lemma BlankFirst(s: string)
    ensures ReadValue(" " + s) == ReadValue(s) && ReadItems(" " + s) == ReadItems(s)
    ensures ReadKeys(" " + s) == ReadKeys(s) && ReadPairs(" " + s) == ReadPairs(s)
  {
    hide *;
    SkipOne(s);
    ValueSkips(" " + s, s);
    ItemsSkip(" " + s, s);
    KeysSkip(" " + s, s);
    PairsSkip(" " + s, s);
  }

  lemma ValueSkips(s: string, t: string)
    requires SkipBlanks(s) == SkipBlanks(t)
    ensures ReadValue(s) == ReadValue(t)
  {
    hide SkipBlanks;
    hide ReadItems;
    hide ReadInline;
    hide ReadNumber;
    hide ReadLiteral;
    hide ReadWord;
  }

  lemma ItemsSkip(s: string, t: string)
    requires SkipBlanks(s) == SkipBlanks(t)
    ensures ReadItems(s) == ReadItems(t)
  {
    hide SkipBlanks;
    hide ReadValue;
  }

  lemma KeysSkip(s: string, t: string)
    requires SkipBlanks(s) == SkipBlanks(t)
    ensures ReadKeys(s) == ReadKeys(t)
  {
    hide SkipBlanks;
    hide ReadKey;
  }

  lemma PairsSkip(s: string, t: string)
    requires ReadKeys(s) == ReadKeys(t)
    ensures ReadPairs(s) == ReadPairs(t)
  {
    hide SkipBlanks;
    hide ReadKeys;
    hide ReadValue;
  }

  /** A printed value starts with a visible character that closes nothing. */
  lemma FormatStart(d: Doc)
    requires Holds(Printable, d)
    ensures Format(d) != "" && !IsBlank(Format(d)[0]) && Format(d)[0] != ']'
  {
    hide FormatItems;
    hide FormatPairs;
    hide QuotedText.Escape;
    if d.DInt? { IntTextIsNumber(d.n); }
  }

  lemma {:induction false} ValueReads(d: Doc, rest: string)
    requires Holds(Printable, d) && Holds(BareKeys, d) && Holds(WellKeyed, d) && Ends(IsNumberChar, rest)
    ensures ReadValue(Format(d) + rest) == Reading(d, rest)
    decreases d, 1
  {
    hide ReadValue;
    hide ReadItems;
    hide ReadInline;
    hide FormatItems;
    hide FormatPairs;
    hide Decimals.IntText;
    hide IsFloatText;
    match d
    case DStr(s) => StringReads(s, rest);
    case DBool(b) => WordReads(b, rest);
    case DInt(n) =>
      IntTextIsNumber(n);
      Decimals.IntReadsBack(n);
      Decimals.IntTextNoLeadingZero(n);
      NumberReadsBack(Decimals.IntText(n), Int(n), rest);
    case DFloat(r) =>
      FloatIsNumber(r);
      NumberReadsBack(r, Float(r), rest);
    case DArray(items) =>
      BracketReads(FormatItems(items), rest);
      ItemsRead(items, rest);
    case DTable(entries) =>
      BraceReads(FormatPairs(entries), rest);
      InlineReads(entries, rest);
  }

  lemma ItemsStep(text: string, v: Option<Value>, tail: string)
    requires text != "" && !IsBlank(text[0]) && text[0] != ']' && tail != "" && (tail[0] == ']' || tail[0] == ',')
    requires ReadValue(text + tail) == if v.None? then None else Some((v.value, tail))
    ensures ReadItems(text + tail)
            == if v.None? then None
               else if tail[0] == ']' then Some(([v.value], tail[1..]))
               else match ReadItems(tail[1..])
                    case None => None
                    case Some((more, after)) => Some(([v.value] + more, after))
  {
    hide ReadValue;
    var s := text + tail;
    assert s[0] == text[0] && SkipBlanks(s) == s && SkipBlanks(tail) == tail;
  }

  lemma Regroup(a: string, b: string, close: string, rest: string)
    ensures (a + ", " + b) + close + rest == a + ("," + (" " + (b + close + rest)))
    ensures a + close + rest == a + (close + rest)
  {
  }

  lemma ItemsTexts(items: seq<Doc>, rest: string)
    requires items != [] && HoldsAll(Printable, items)
    ensures Holds(Printable, items[0]) && HoldsAll(Printable, items[1..])
    ensures |items| == 1 ==> FormatItems(items) + "]" + rest == Format(items[0]) + ("]" + rest)
    ensures |items| > 1 ==> FormatItems(items) + "]" + rest
                            == Format(items[0]) + ("," + (" " + (FormatItems(items[1..]) + "]" + rest)))
    ensures ("]" + rest)[1..] == rest
  {
    hide Format;
    hide Holds;
    var tail := if |items| == 1 then "" else FormatItems(items[1..]);
    var head := Format(items[0]);
    assert FormatItems(items) == if |items| == 1 then head else head + ", " + tail;
    hide *;
    Regroup(head, tail, "]", rest);
  }

  lemma {:induction false} ItemsRead(items: seq<Doc>, rest: string)
    requires HoldsAll(Printable, items) && HoldsAll(BareKeys, items) && HoldsAll(WellKeyed, items)
    ensures ReadItems(FormatItems(items) + "]" + rest) == ReadingItems(items, rest)
    decreases items, 0
  {
    if items == [] {
      assert "" + "]" + rest == "]" + rest && ("]" + rest)[1..] == rest;
    } else {
      ItemsConditions(items);
      hide *;
      var d := items[0];
      var v := if Holds(BasicStrings, d) then Some(Meaning(d)) else None;
      FormatStart(d);
      ItemsTexts(items, rest);
      ReadingItemsStep(items, rest);
      if |items| == 1 {
        var tail := "]" + rest;
        assert items[1..] == [] && [Meaning(d)] + [] == [Meaning(d)];
        Closers(rest);
        ReadingIs(d, tail);
        ValueReads(d, tail);
        ItemsStep(Format(d), v, tail);
      } else {
        var after := FormatItems(items[1..]) + "]" + rest;
        var tail := "," + (" " + after);
        Closers(" " + after);
        ReadingIs(d, tail);
        ValueReads(d, tail);
        ItemsStep(Format(d), v, tail);
        BlankFirst(after);
        assert tail[1..] == " " + after;
        ItemsRead(items[1..], rest);
      }
    }
  }

  lemma ItemsConditions(items: seq<Doc>)
    requires items != [] && HoldsAll(BareKeys, items) && HoldsAll(WellKeyed, items)
    ensures Holds(BareKeys, items[0]) && Holds(WellKeyed, items[0])
    ensures HoldsAll(BareKeys, items[1..]) && HoldsAll(WellKeyed, items[1..])
  {
    hide Holds;
  }

  lemma ReadingIs(d: Doc, rest: string)
    ensures Reading(d, rest) == if Holds(BasicStrings, d) then Some((Meaning(d), rest)) else None
  {
    hide Holds;
    hide Meaning;
  }

  lemma ReadingItemsStep(items: seq<Doc>, rest: string)
    requires items != []
    ensures ReadingItems([], rest) == Some(([], rest))
    ensures ReadingItems(items, rest)
            == if !Holds(BasicStrings, items[0]) then None
               else match ReadingItems(items[1..], rest)
                    case None => None
                    case Some((more, after)) => Some(([Meaning(items[0])] + more, after))
  {
    hide Holds;
    hide Meaning;
    var more := items[1..];
    assert HoldsAll(BasicStrings, items) == (Holds(BasicStrings, items[0]) && HoldsAll(BasicStrings, more));
    assert MeaningItems(items) == [Meaning(items[0])] + MeaningItems(more);
    hide HoldsAll;
    hide MeaningItems;
  }

  lemma Closers(s: string)
    ensures Ends(IsNumberChar, "]" + s) && Ends(IsNumberChar, "," + s) && Ends(IsNumberChar, " " + s)
    ensures Ends(IsBareChar, "]" + s) && Ends(IsBareChar, "." + s) && Ends(IsBareChar, " " + s)
    ensures Ends(IsBareChar, "=" + s)
  {
  }

  // ---------------------------------------------------------------- printed pairs

  lemma BareStart(k: string, rest: string)
    requires IsBareKey(k)
    ensures var s := k + rest;
            s != "" && s[0] == k[0] && IsBareChar(s[0]) && SkipBlanks(s) == s
            && s[0] != QuotedText.QUOTE && s[0] != APOSTROPHE && s[0] !in "[]{}#=,."
  {
  }

  lemma BareKeyReads(k: string, rest: string)
    requires IsBareKey(k) && Ends(IsBareChar, rest)
    ensures ReadKey(k + rest) == Some((k, rest))
  {
    hide IsBareChar;
    hide RunLength;
    var s := k + rest;
    BareStart(k, rest);
    RunLengthOf(IsBareChar, k, rest);
    assert s[..|k|] == k && s[|k|..] == rest;
  }

  lemma BareKeysRead(k: string, rest: string)
    requires IsBareKey(k) && Ends(IsBareChar, rest)
    ensures var u := SkipBlanks(rest);
            ReadKeys(k + rest)
            == if u != "" && u[0] == '.' then
                 match ReadKeys(u[1..])
                 case None => None
                 case Some((more, after)) => Some(([k] + more, after))
               else Some(([k], u))
  {
    hide ReadKey;
    hide IsBareKey;
    hide IsBareChar;
    BareKeyReads(k, rest);
    BareStart(k, rest);
  }

  lemma PairReads(e: Entry, tail: string)
    requires HoldsEntry(Printable, e) && IsBareKey(e.key)
    requires ReadValue(Format(e.value) + tail) == Reading(e.value, tail)
    ensures ReadPair(FormatPair(e) + tail)
            == if Holds(BasicStrings, e.value) then Some((PKeyValue([e.key], Meaning(e.value)), tail)) else None
  {
    hide *;
    FormatPairIs(e, tail);
    var value := Format(e.value) + tail;
    var afterKey := " " + ("=" + (" " + value));
    Closers("=" + (" " + value));
    BareKeysRead(e.key, afterKey);
    SkipOne("=" + (" " + value));
    var t := "=" + (" " + value);
    NotBlank(t);
    assert t[1..] == " " + value;
    BlankFirst(value);
    ReadingIs(e.value, tail);
    PairIs(e.key + afterKey);
  }

  lemma NotBlank(t: string)
    requires t != "" && t[0] in "=},"
    ensures SkipBlanks(t) == t
  {
  }

  lemma PairIs(s: string)
    ensures ReadPair(s)
            == match ReadKeys(s)
               case None => None
               case Some((p, u)) =>
                 if u == "" || u[0] != '=' then None
                 else match ReadValue(u[1..])
                      case None => None
                      case Some((v, after)) => Some((PKeyValue(p, v), after))
  {
    hide ReadKeys;
    hide ReadValue;
  }

  lemma FormatPairIs(e: Entry, tail: string)
    requires HoldsEntry(Printable, e)
    ensures Holds(Printable, e.value)
    ensures FormatPair(e) + tail == e.key + (" " + ("=" + (" " + (Format(e.value) + tail))))
  {
    hide Format;
    hide Holds;
    assert FormatPair(e) == e.key + " = " + Format(e.value);
    hide *;
    PairText(e.key, Format(e.value), tail);
  }

  lemma PairText(key: string, value: string, tail: string)
    ensures key + " = " + value + tail == key + (" " + ("=" + (" " + (value + tail))))
  {
  }

  lemma {:induction false} EntryReads(e: Entry, tail: string)
    requires HoldsEntry(Printable, e) && HoldsEntry(BareKeys, e) && HoldsEntry(WellKeyed, e)
    requires Ends(IsNumberChar, tail)
    ensures ReadPair(FormatPair(e) + tail)
            == if Holds(BasicStrings, e.value) then Some((PKeyValue([e.key], Meaning(e.value)), tail)) else None
    decreases e, 1
  {
    hide ReadValue;
    hide ReadPair;
    hide Format;
    hide Ends;
    ValueReads(e.value, tail);
    PairReads(e, tail);
  }

  lemma PairsStep(text: string, kv: Option<Parsed>, tail: string)
    requires ReadPair(text + tail) == if kv.None? then None else Some((kv.value, tail))
    requires var u := SkipBlanks(tail); u != "" && (u[0] == '}' || u[0] == ',')
    ensures var u := SkipBlanks(tail);
            ReadPairs(text + tail)
            == if kv.None? then None
               else if u[0] == '}' then Some(([kv.value], u[1..]))
               else match ReadPairs(u[1..])
                    case None => None
                    case Some((more, after)) => Some(([kv.value] + more, after))
  {
    hide ReadPair;
    hide SkipBlanks;
  }

  lemma PairsTexts(entries: seq<Entry>, rest: string)
    requires entries != [] && HoldsEntries(Printable, entries)
    ensures HoldsEntry(Printable, entries[0]) && HoldsEntries(Printable, entries[1..])
    ensures |entries| == 1 ==> FormatPairs(entries) + " }" + rest == FormatPair(entries[0]) + (" " + ("}" + rest))
    ensures |entries| > 1 ==> FormatPairs(entries) + " }" + rest
                              == FormatPair(entries[0]) + ("," + (" " + (FormatPairs(entries[1..]) + " }" + rest)))
  {
    hide FormatPair;
    hide HoldsEntry;
    hide KeysDistinct;
    var tail := if |entries| == 1 then "" else FormatPairs(entries[1..]);
    var head := FormatPair(entries[0]);
    assert FormatPairs(entries) == if |entries| == 1 then head else head + ", " + tail;
    hide *;
    Regroup(head, tail, " }", rest);
    CloseBrace(head, rest);
  }

  lemma CloseBrace(head: string, rest: string)
    ensures head + " }" + rest == head + (" " + ("}" + rest))
  {
  }

  lemma PairsConditions(entries: seq<Entry>)
    requires entries != [] && HoldsEntries(BareKeys, entries) && HoldsEntries(WellKeyed, entries)
    ensures HoldsEntry(BareKeys, entries[0]) && HoldsEntry(WellKeyed, entries[0])
    ensures HoldsEntries(BareKeys, entries[1..]) && HoldsEntries(WellKeyed, entries[1..])
    ensures KeysDistinct(entries)
  {
    hide HoldsEntry;
  }

  lemma ReadingPairsStep(entries: seq<Entry>, rest: string)
    requires entries != []
    ensures ReadingPairs([], rest) == Some(([], rest))
    ensures var e := entries[0];
            ReadingPairs(entries, rest)
            == if !Holds(BasicStrings, e.value) then None
               else match ReadingPairs(entries[1..], rest)
                    case None => None
                    case Some((more, after)) => Some(([PKeyValue([e.key], Meaning(e.value))] + more, after))
  {
    UnfoldEntries(entries);
    hide Holds;
    hide Meaning;
    var more := entries[1..];
    assert PairsOf(entries) == [PKeyValue([entries[0].key], Meaning(entries[0].value))] + PairsOf(more);
    hide HoldsEntries;
    hide PairsOf;
  }

  lemma AfterPair(rest: string, after: string)
    ensures SkipBlanks(" " + ("}" + rest)) == "}" + rest && ("}" + rest)[1..] == rest
    ensures SkipBlanks("," + (" " + after)) == "," + (" " + after) && ("," + (" " + after))[1..] == " " + after
  {
    SkipOne("}" + rest);
    NotBlank("}" + rest);
    NotBlank("," + (" " + after));
  }

  lemma {:induction false} PairsRead(entries: seq<Entry>, rest: string)
    requires entries != []
    requires HoldsEntries(Printable, entries) && HoldsEntries(BareKeys, entries) && HoldsEntries(WellKeyed, entries)
    ensures ReadPairs(FormatPairs(entries) + " }" + rest) == ReadingPairs(entries, rest)
    decreases entries, 0
  {
    hide *;
    var e := entries[0];
    var kv := if Holds(BasicStrings, e.value) then Some(PKeyValue([e.key], Meaning(e.value))) else None;
    PairsConditions(entries);
    PairsTexts(entries, rest);
    ReadingPairsStep(entries, rest);
    if |entries| == 1 {
      var tail := " " + ("}" + rest);
      var alone := [PKeyValue([e.key], Meaning(e.value))];
      assert entries[1..] == [] && alone + [] == alone;
      AfterPair(rest, "");
      Closers("}" + rest);
      EntryReads(e, tail);
      PairsStep(FormatPair(e), kv, tail);
    } else {
      var after := FormatPairs(entries[1..]) + " }" + rest;
      var tail := "," + (" " + after);
      AfterPair(rest, after);
      Closers(" " + after);
      BlankFirst(after);
      EntryReads(e, tail);
      PairsStep(FormatPair(e), kv, tail);
      PairsRead(entries[1..], rest);
    }
  }

  lemma PairsStart(entries: seq<Entry>, rest: string)
    requires entries != [] && HoldsEntries(Printable, entries) && HoldsEntries(BareKeys, entries)
    ensures var s := FormatPairs(entries) + rest; s != "" && s[0] != '}' && SkipBlanks(s) == s
  {
    hide Format;
    assert HoldsEntry(BareKeys, entries[0]);
    var e := entries[0];
    assert e.key <= FormatPairs(entries) + rest;
    BareStart(e.key, (FormatPairs(entries) + rest)[|e.key|..]);
  }

  lemma InlineIs(s: string)
    ensures var t := SkipBlanks(s);
            ReadInline(s)
            == if t != "" && t[0] == '}' then Some((Table(map[]), t[1..]))
               else match ReadPairs(t)
                    case None => None
                    case Some((pairs, after)) =>
                      match Interpret(pairs) case None => None case Some(v) => Some((v, after))
  {
    hide ReadPairs;
    hide Interpret;
  }

  lemma {:induction false} InlineReads(entries: seq<Entry>, rest: string)
    requires HoldsEntries(Printable, entries) && HoldsEntries(BareKeys, entries) && HoldsEntries(WellKeyed, entries)
    ensures ReadInline(" " + FormatPairs(entries) + " }" + rest)
            == if HoldsEntries(BasicStrings, entries) then Some((Table(MeaningEntries(entries)), rest)) else None
    decreases entries, 1
  {
    hide *;
    var after := FormatPairs(entries) + " }" + rest;
    assert " " + FormatPairs(entries) + " }" + rest == " " + after;
    SkipOne(after);
    InlineIs(" " + after);
    if entries == [] {
      NoPairs(rest);
    } else {
      PairsStart(entries, " }" + rest);
      assert after == FormatPairs(entries) + (" }" + rest);
      PairsRead(entries, rest);
      PairsConditions(entries);
      PairsMeanTable(entries);
      ReadingPairsIs(entries, rest);
    }
  }

  lemma ReadingPairsIs(entries: seq<Entry>, rest: string)
    ensures ReadingPairs(entries, rest)
         == if HoldsEntries(BasicStrings, entries) then Some((PairsOf(entries), rest)) else None
  {
    hide HoldsEntries;
    hide PairsOf;
  }

  lemma NoPairs(rest: string)
    ensures var s := FormatPairs([]) + " }" + rest;
            SkipBlanks(s) == "}" + rest && ("}" + rest)[1..] == rest
    ensures HoldsEntries(BasicStrings, []) && MeaningEntries([]) == map[]
  {
    assert FormatPairs([]) + " }" + rest == " " + ("}" + rest);
    SkipOne("}" + rest);
  }
}
