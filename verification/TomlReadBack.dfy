/** A TOML reader for whole texts, line by line, and what it makes of printed configurations with bare
    keys. */
module TomlReadBack {
  import opened Sequences
  import opened Wrappers
  import opened ConfigOverlay
  import opened TomlText
  import opened TomlRules
  import opened TomlReader
  import opened TomlDocument
  import opened TomlRendering
  import opened PyStrings
  import Decimals
  import QuotedText

  // ---------------------------------------------------------------- the reader

  function SplitLines(s: string): (ts: seq<string>)
    ensures ts != []
  {
    if s == "" then [""]
    else if s[0] == '\n' then [""] + SplitLines(s[1..])
    else
      var rest := SplitLines(s[1..]);
      [[s[0]] + rest[0]] + rest[1..]
  }

  /** Nothing but blanks and a comment. */
  predicate AtEnd(s: string) {
    var t := SkipBlanks(s);
    t == "" || (t[0] == '#' && forall i | 0 <= i < |t| :: IsPlain(t[i]))
  }

  /** The path of a header after its opening bracket, nothing but a comment after the closing one. */
  function ReadHeader(s: string): Option<Path> {
    match ReadKeys(s)
    case None => None
    case Some((p, u)) => if u != "" && u[0] == ']' && AtEnd(u[1..]) then Some(p) else None
  }

  function ParseLine(s: string): Option<Parsed> {
    var t := SkipBlanks(s);
    if AtEnd(t) then Some(PBlank)
    else if t[0] == '[' then
      (match ReadHeader(t[1..])
       case None => None
       case Some(p) => Some(PHeader(p)))
    else
      match ReadPair(t)
      case None => None
      case Some((kv, rest)) => if AtEnd(rest) then Some(kv) else None
  }

  /** Read the lines one by one, each acting on the state the ones before it left. */
  function ReadLines(ts: seq<string>, st: State): Option<State> {
    if ts == [] then Some(st)
    else
      match ParseLine(ts[0])
      case None => None
      case Some(p) =>
        match Step(p, st)
        case None => None
        case Some(next) => ReadLines(ts[1..], next)
  }

  function ReadToml(text: string): Option<Value> {
    match ReadLines(SplitLines(text), START)
    case None => None
    case Some(st) => Some(st.root)
  }

  lemma {:induction false} ReadLinesConcat(a: seq<string>, b: seq<string>, st: State)
    ensures ReadLines(a + b, st) == match ReadLines(a, st) case None => None case Some(next) => ReadLines(b, next)
  {
    hide ParseLine;
    hide Step;
    if a == [] {
      assert a + b == b;
    } else {
      assert (a + b)[1..] == a[1..] + b;
      var p := ParseLine(a[0]);
      if p.Some? && Step(p.value, st).Some? { ReadLinesConcat(a[1..], b, Step(p.value, st).value); }
    }
  }

  lemma BlankLineReads(a: seq<string>, st: State)
    ensures ReadLines(a + [""], st) == ReadLines(a, st)
  {
    ReadLinesConcat(a, [""], st);
    assert ParseLine("") == Some(PBlank);
    hide ParseLine;
    hide ReadLines;
    var r := ReadLines(a, st);
    if r.Some? { OneBlankReads(r.value); }
  }

  lemma OneBlankReads(st: State)
    ensures ReadLines([""], st) == Some(st)
  {
    assert ParseLine("") == Some(PBlank);
    assert [""][1..] == [];
  }

  // ---------------------------------------------------------------- single lines

  lemma {:induction false} JoinedKeysRead(path: Path)
    requires path != [] && forall k | k in path :: IsBareKey(k)
    ensures ReadKeys(JoinKeys(path) + "]") == Some((path, "]"))
  {
    hide *;
    var k := path[0];
    assert k in path;
    JoinKeysIs(path);
    if |path| == 1 {
      Closers("");
      BareKeysRead(k, "]" + "");
      BracketIsPlain();
      assert path == [k] && "]" + "" == "]";
    } else {
      var after := JoinKeys(path[1..]) + "]";
      JoinedKeysRead(path[1..]);
      Closers(after);
      BareKeysRead(k, "." + after);
      DotIsPlain(after);
      assert JoinKeys(path) + "]" == k + ("." + after);
      assert path == [k] + path[1..];
    }
  }

  lemma JoinKeysIs(path: Path)
    requires path != []
    ensures JoinKeys(path) == if |path| == 1 then path[0] else path[0] + "." + JoinKeys(path[1..])
  {
  }

  lemma BracketIsPlain()
    ensures SkipBlanks("]") == "]"
  {
  }

  lemma DotIsPlain(after: string)
    ensures SkipBlanks("." + after) == "." + after && ("." + after)[1..] == after
  {
  }

  lemma PrintedLineIsNoComment(t: string)
    requires t != "" && t[0] != '#' && !IsBlank(t[0])
    ensures SkipBlanks(t) == t && !AtEnd(t) && AtEnd("")
  {
  }

  /** A printed line reads as what it means, or is refused for a string outside the basic plane. */
  lemma LineReads(l: Line)
    requires LineHolds(Printable, l) && LineHolds(BareKeys, l) && LineHolds(WellKeyed, l)
    ensures ParseLine(LineText(l)) == if LineHolds(BasicStrings, l) then Some(ParsedLine(l)) else None
  {
    match l
    case BlankLine =>
    case Header(p) => HeaderReads(p);
    case KeyValue(k, d) =>
      hide Format;
      hide Holds;
      hide Meaning;
      hide ReadPair;
      hide AtEnd;
      var e := Entry(k, d);
      assert HoldsEntry(Printable, e) && HoldsEntry(BareKeys, e) && HoldsEntry(WellKeyed, e);
      EntryReads(e, "");
      var s := FormatPair(e);
      assert s == LineText(l) && s + "" == s && k <= s;
      BareStart(k, s[|k|..]);
      PrintedLineIsNoComment(s);
  }

  lemma HeaderReads(p: Path)
    requires p != [] && forall k | k in p :: IsBareKey(k)
    ensures ParseLine("[" + JoinKeys(p) + "]") == Some(PHeader(p))
  {
    hide ReadKeys;
    hide JoinKeys;
    hide IsBareKey;
    JoinedKeysRead(p);
    var s := "[" + JoinKeys(p) + "]";
    assert s[1..] == JoinKeys(p) + "]" && "]"[1..] == "";
    PrintedLineIsNoComment(s);
  }

  /** Printed lines act as what they mean, unless one is refused. */
  lemma {:induction false} LinesRead(ls: seq<Line>, st: State)
    requires LinesHold(Printable, ls) && LinesHold(BareKeys, ls) && LinesHold(WellKeyed, ls)
    ensures ReadLines(Texts(ls), st) == if LinesHold(BasicStrings, ls) then Run(ParsedLines(ls), st) else None
  {
    if ls != [] {
      hide LineHolds;
      hide LineText;
      hide ParseLine;
      hide ParsedLine;
      hide Step;
      LinesHoldCons(Printable, ls);
      LinesHoldCons(BareKeys, ls);
      LinesHoldCons(WellKeyed, ls);
      LinesHoldCons(BasicStrings, ls);
      LineReads(ls[0]);
      assert Texts(ls)[1..] == Texts(ls[1..]) && ParsedLines(ls)[1..] == ParsedLines(ls[1..]);
      var next := Step(ParsedLine(ls[0]), st);
      if next.Some? { LinesRead(ls[1..], next.value); }
    }
  }

  // ---------------------------------------------------------------- visible text

  predicate Visible(s: string) {
    forall i | 0 <= i < |s| :: 0x20 <= s[i] as int <= 0x7E
  }

  lemma {:induction false} EscapeVisible(s: string)
    ensures Visible(QuotedText.Escape(s))
  {
    if s != "" {
      EscapeCharVisible(s[0]);
      EscapeVisible(s[1..]);
    }
  }

  lemma HexVisible(n: nat)
    requires n < 0x10000
    ensures Visible(QuotedText.UnicodeEscape(n))
  {
    forall d: nat | d < 16 ensures 0x20 <= QuotedText.HexChar(d) as int <= 0x7E {
    }
    hide QuotedText.HexChar;
  }

  lemma VisibleConcat(a: string, b: string)
    requires Visible(a) && Visible(b)
    ensures Visible(a + b)
  {
  }

  lemma EscapeCharVisible(c: char)
    ensures Visible(QuotedText.EscapeChar(c))
  {
    QuotedText.LongEscape(c);
    if |QuotedText.EscapeChar(c)| <= 2 {
      hide QuotedText.UnicodeEscape;
    } else {
      hide *;
      if QuotedText.InBasicPlane(c) {
        HexVisible(c as int);
      } else {
        HexVisible(QuotedText.HighSurrogate(c));
        HexVisible(QuotedText.LowSurrogate(c));
        VisibleConcat(QuotedText.UnicodeEscape(QuotedText.HighSurrogate(c)),
                      QuotedText.UnicodeEscape(QuotedText.LowSurrogate(c)));
      }
    }
  }

  lemma BareVisible(k: string)
    requires IsBareKey(k)
    ensures Visible(k)
  {
  }

  lemma NumbersVisible(d: Doc)
    requires d.DInt? || d.DFloat?
    ensures Visible(Format(d)) && Format(d) != "" && !IsSpace(Format(d)[|Format(d)| - 1])
  {
    if d.DInt? {
      IntTextIsNumber(d.n);
    } else {
      FloatIsNumber(d.repr);
    }
    var t := Format(d);
    assert t != "" && forall i | 0 <= i < |t| :: IsNumberChar(t[i]);
    hide *;
    forall i | 0 <= i < |t| ensures 0x20 <= t[i] as int <= 0x7E && !IsSpace(t[i]) {
      NumberCharVisible(t[i]);
    }
    AllVisible(t);
  }

  lemma NumberCharVisible(c: char)
    requires IsNumberChar(c)
    ensures 0x20 <= c as int <= 0x7E && !IsSpace(c)
  {
  }

  lemma AllVisible(t: string)
    requires forall i | 0 <= i < |t| :: 0x20 <= t[i] as int <= 0x7E
    ensures Visible(t)
  {
  }

  /** Whatever its keys, a printed value ends in a visible character. */
  lemma FormatEnds(d: Doc)
    requires Holds(Printable, d)
    ensures Format(d) != "" && !IsSpace(Format(d)[|Format(d)| - 1])
  {
    hide FormatItems;
    hide FormatPairs;
    hide QuotedText.Escape;
    hide Decimals.IntText;
    if d.DInt? || d.DFloat? { NumbersVisible(d); }
  }

  /** Printed values with bare keys are visible ASCII. */
  lemma {:induction false} FormatVisible(d: Doc)
    requires Holds(Printable, d) && Holds(BareKeys, d)
    ensures Visible(Format(d))
    decreases d, 1
  {
    match d
    case DStr(s) => EscapeVisible(s);
    case DBool(_) =>
    case DInt(_) => NumbersVisible(d);
    case DFloat(_) => NumbersVisible(d);
    case DArray(items) => ItemsVisible(items);
    case DTable(entries) => PairsVisible(entries);
  }

  lemma {:induction false} ItemsVisible(items: seq<Doc>)
    requires HoldsAll(Printable, items) && HoldsAll(BareKeys, items)
    ensures Visible(FormatItems(items))
    decreases items, 0
  {
    if items != [] {
      FormatVisible(items[0]);
      ItemsVisible(items[1..]);
    }
  }

  lemma {:induction false} PairsVisible(entries: seq<Entry>)
    requires HoldsEntries(Printable, entries) && HoldsEntries(BareKeys, entries)
    ensures Visible(FormatPairs(entries))
    decreases entries, 0
  {
    if entries != [] {
      PairVisible(entries[0]);
      PairsVisible(entries[1..]);
    }
  }

  lemma {:induction false} PairVisible(e: Entry)
    requires HoldsEntry(Printable, e) && HoldsEntry(BareKeys, e)
    ensures Visible(FormatPair(e))
    decreases e, 1
  {
    FormatVisible(e.value);
    BareVisible(e.key);
  }

  lemma {:induction false} KeysVisible(path: Path)
    requires forall k | k in path :: IsBareKey(k)
    ensures Visible(JoinKeys(path))
  {
    if path != [] {
      assert IsBareKey(path[0]);
      BareVisible(path[0]);
      KeysVisible(path[1..]);
    }
  }

  lemma LineTextVisible(l: Line)
    requires LineHolds(Printable, l) && LineHolds(BareKeys, l)
    ensures Visible(LineText(l))
  {
    match l
    case BlankLine =>
    case Header(p) => KeysVisible(p);
    case KeyValue(k, d) =>
      FormatVisible(d);
      BareVisible(k);
      hide Format;
  }

  lemma LineTextEnds(l: Line)
    requires LineHolds(Printable, l)
    ensures var t := LineText(l);
            if l.BlankLine? then t == "" else t != "" && !IsSpace(t[|t| - 1])
  {
    hide Format;
    hide JoinKeys;
    if l.KeyValue? { FormatEnds(l.value); }
  }

  // ---------------------------------------------------------------- from text to physical lines

  /** A printed line is several lines of text if a key in it holds a newline. */
  function Physical(ts: seq<string>): seq<string> {
    if ts == [] then [] else SplitLines(ts[0]) + Physical(ts[1..])
  }

  lemma SplitCons(c: char, s: string)
    ensures SplitLines([c] + s)
         == if c == '\n' then [""] + SplitLines(s) else [[c] + SplitLines(s)[0]] + SplitLines(s)[1..]
  {
    assert ([c] + s)[1..] == s;
  }

  lemma FirstOfConcat(a: seq<string>, b: seq<string>)
    requires a != []
    ensures (a + b)[0] == a[0] && (a + b)[1..] == a[1..] + b
  {
  }

  lemma {:induction false} SplitAcross(t: string, rest: string)
    ensures SplitLines(t + "\n" + rest) == SplitLines(t) + SplitLines(rest)
  {
    hide *;
    if t == "" {
      EmptyText();
      SplitCons('\n', rest);
      assert "" + "\n" + rest == ['\n'] + rest;
    } else {
      var c, more := t[0], t[1..];
      assert t == [c] + more && t + "\n" + rest == [c] + (more + "\n" + rest);
      SplitCons(c, more + "\n" + rest);
      SplitCons(c, more);
      SplitAcross(more, rest);
      var a, b := SplitLines(more), SplitLines(rest);
      ConcatAssociates([""], a, b);
      FirstOfConcat(a, b);
      ConcatAssociates([[c] + a[0]], a[1..], b);
    }
  }

  lemma {:induction false} SplitJoined(ts: seq<string>)
    requires ts != []
    ensures SplitLines(JoinLines(ts)) == Physical(ts)
  {
    hide SplitLines;
    JoinLinesUnfold(ts);
    if |ts| == 1 {
      assert Physical(ts) == SplitLines(ts[0]) + [];
    } else {
      SplitJoined(ts[1..]);
      SplitAcross(ts[0], JoinLines(ts[1..]));
    }
  }

  lemma {:induction false} PhysicalConcat(a: seq<string>, b: seq<string>)
    ensures Physical(a + b) == Physical(a) + Physical(b)
  {
    hide SplitLines;
    if a == [] {
      assert a + b == b;
    } else {
      assert (a + b)[1..] == a[1..] + b;
      PhysicalConcat(a[1..], b);
      assert SplitLines(a[0]) + (Physical(a[1..]) + Physical(b)) == SplitLines(a[0]) + Physical(a[1..]) + Physical(b);
    }
  }

  lemma PhysicalBlank(a: seq<string>)
    ensures Physical(a + [""]) == Physical(a) + [""]
  {
    PhysicalConcat(a, [""]);
    assert Physical([""]) == SplitLines("") + [];
  }

  lemma {:induction false} VisibleIsOneLine(t: string)
    requires Visible(t)
    ensures SplitLines(t) == [t]
  {
    if t != "" {
      VisibleIsOneLine(t[1..]);
      assert t[0] != '\n' && t == [t[0]] + t[1..];
    }
  }

  lemma {:induction false} BareLinesArePhysical(ls: seq<Line>)
    requires LinesHold(Printable, ls) && LinesHold(BareKeys, ls)
    ensures Physical(Texts(ls)) == Texts(ls)
  {
    if ls != [] {
      hide LineText;
      hide LineHolds;
      hide SplitLines;
      LinesHoldCons(Printable, ls);
      LinesHoldCons(BareKeys, ls);
      LineTextVisible(ls[0]);
      VisibleIsOneLine(LineText(ls[0]));
      BareLinesArePhysical(ls[1..]);
      assert Texts(ls)[1..] == Texts(ls[1..]);
      assert Texts(ls) == [LineText(ls[0])] + Texts(ls[1..]);
    }
  }

  /** Lines without the blank ones at the end. */
  function DropBlankTail(ls: seq<Line>): seq<Line> {
    if ls != [] && ls[|ls| - 1].BlankLine? then DropBlankTail(ls[..|ls| - 1]) else ls
  }

  lemma StripNewline(s: string)
    ensures RStrip(s + "\n") == RStrip(s)
  {
    assert (s + "\n")[..|s|] == s;
  }

  lemma StripGood(s: string, t: string)
    requires t != "" && !IsSpace(t[|t| - 1])
    ensures RStrip(s + t) == s + t
  {
  }

  lemma TextsSnoc(ls: seq<Line>)
    requires ls != [] && LinesHold(Printable, ls)
    ensures LinesHold(Printable, ls[..|ls| - 1]) && LineHolds(Printable, ls[|ls| - 1])
    ensures Texts(ls) == Texts(ls[..|ls| - 1]) + [LineText(ls[|ls| - 1])]
    ensures Texts(ls[..|ls| - 1]) == [] <==> |ls| == 1
  {
    hide LineText;
    hide LineHolds;
  }

  lemma DropBlankTailIs(ls: seq<Line>)
    ensures DropBlankTail(ls)
         == if ls != [] && ls[|ls| - 1].BlankLine? then DropBlankTail(ls[..|ls| - 1]) else ls
  {
  }

  lemma StripLastLine(ts: seq<string>, t: string)
    ensures t == "" ==> RStrip(JoinLines(ts + [t])) == RStrip(JoinLines(ts))
    ensures t != "" && !IsSpace(t[|t| - 1]) ==> RStrip(JoinLines(ts + [t])) == JoinLines(ts + [t])
  {
    hide RStrip;
    hide IsSpace;
    EmptyText();
    if ts == [] {
      assert ts + [t] == [t];
      JoinLinesUnfold([t]);
      hide JoinLines;
      if t != "" && !IsSpace(t[|t| - 1]) { StripGood("", t); }
      assert "" + t == t;
    } else {
      hide JoinLines;
      var s := JoinLines(ts);
      JoinSnoc(ts, t);
      StripNewline(s);
      assert s + "\n" + "" == s + "\n";
      if t != "" && !IsSpace(t[|t| - 1]) { StripGood(s + "\n", t); }
    }
  }

  /** Stripping the joined text drops exactly the blank lines at its end. */
  lemma {:induction false} StripDropsBlankTail(ls: seq<Line>)
    requires LinesHold(Printable, ls)
    ensures LinesHold(Printable, DropBlankTail(ls))
    ensures RStrip(JoinLines(Texts(ls))) == JoinLines(Texts(DropBlankTail(ls)))
  {
    hide *;
    DropBlankTailIs(ls);
    if ls == [] {
      NoTexts();
    } else {
      var init, last := ls[..|ls| - 1], ls[|ls| - 1];
      TextsSnoc(ls);
      LineTextEnds(last);
      StripLastLine(Texts(init), LineText(last));
      if last.BlankLine? { StripDropsBlankTail(init); }
    }
  }

  lemma NoTexts()
    ensures LinesHold(Printable, []) && Texts([]) == [] && RStrip(JoinLines([])) == JoinLines([])
  {
    EmptyText();
    StripEmptyText("");
  }

  lemma StripEmptyText(t: string)
    requires t == ""
    ensures RStrip(t) == ""
  {
  }

  /** The blank lines at the end act as nothing. */
  lemma {:induction false} BlankTailMeansNothing(ls: seq<Line>, st: State)
    requires LinesHold(Printable, ls) && LinesHold(Printable, DropBlankTail(ls))
    ensures ReadLines(Physical(Texts(DropBlankTail(ls))), st) == ReadLines(Physical(Texts(ls)), st)
  {
    hide *;
    DropBlankTailIs(ls);
    if ls != [] && ls[|ls| - 1].BlankLine? {
      var init := ls[..|ls| - 1];
      TextsSnoc(ls);
      LineTextEnds(ls[|ls| - 1]);
      BlankTailMeansNothing(init, st);
      PhysicalBlank(Texts(init));
      BlankLineReads(Physical(Texts(init)), st);
    }
  }

  lemma EndedText(ts: seq<string>, st: State)
    ensures ReadLines(SplitLines(JoinLines(ts) + "\n"), st) == ReadLines(Physical(ts), st)
  {
    hide ReadLines;
    hide Physical;
    var t := JoinLines(ts);
    SplitAcross(t, "");
    assert t + "\n" + "" == t + "\n";
    if ts == [] {
      EmptyText();
      BlankLineReads([""], st);
      BlankLineReads([], st);
      assert [] + [""] == [""];
    } else {
      SplitJoined(ts);
      EmptyText();
      BlankLineReads(Physical(ts), st);
    }
  }

  lemma EmptyText()
    ensures SplitLines("") == [""] && JoinLines([]) == "" && Physical([]) == []
  {
  }

  /** Reading a printed document is reading its printed lines, whatever its keys. */
  lemma DocumentReadsAsLines(entries: seq<Entry>)
    requires HoldsEntries(Printable, entries)
    ensures LinesHold(Printable, DocumentLines(entries))
    ensures ReadLines(SplitLines(DocumentText(entries)), START)
         == ReadLines(Physical(Texts(DocumentLines(entries))), START)
  {
    hide *;
    DocumentTextIs(entries);
    var ls := DocumentLines(entries);
    StripDropsBlankTail(ls);
    BlankTailMeansNothing(ls, START);
    EndedText(Texts(DropBlankTail(ls)), START);
  }

  lemma DocumentTextIs(entries: seq<Entry>)
    requires HoldsEntries(Printable, entries)
    ensures LinesHold(Printable, DocumentLines(entries))
    ensures DocumentText(entries) == RStrip(JoinLines(Texts(DocumentLines(entries)))) + "\n"
  {
    DocumentLinesHold(Printable, entries);
  }

  // ---------------------------------------------------------------- the round trip for bare keys

  lemma TextReads(entries: seq<Entry>)
    requires HoldsEntries(Printable, entries) && HoldsEntries(BareKeys, entries)
    requires HoldsEntries(WellKeyed, entries) && KeysDistinct(entries)
    ensures ReadToml(DocumentText(entries))
            == if HoldsEntries(BasicStrings, entries) then Some(Table(MeaningEntries(entries))) else None
  {
    hide *;
    DocumentLinesHold(Printable, entries);
    DocumentLinesHold(BareKeys, entries);
    DocumentLinesHold(WellKeyed, entries);
    DocumentLinesHold(BasicStrings, entries);
    var ls := DocumentLines(entries);
    DocumentReadsAsLines(entries);
    BareLinesArePhysical(ls);
    LinesRead(ls, START);
    LinesMeanDocument(entries);
    ReadTomlIs(DocumentText(entries));
    InterpretIs(ParsedLines(ls));
  }

  lemma ReadTomlIs(text: string)
    ensures ReadToml(text) == match ReadLines(SplitLines(text), START) case None => None case Some(st) => Some(st.root)
  {
  }

  lemma InterpretIs(ps: seq<Parsed>)
    ensures Interpret(ps) == match Run(ps, START) case None => None case Some(st) => Some(st.root)
  {
  }
}
