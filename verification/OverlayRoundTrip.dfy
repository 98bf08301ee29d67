/** A merged configuration, printed and read back; and what becomes of keys that are not bare. */
module OverlayRoundTrip {
  import opened Wrappers
  import opened ConfigOverlay
  import opened Scanning
  import opened TomlDocument
  import opened TomlReader
  import opened TomlReadBack
  import opened TomlRendering
  import opened TomlRoundTrip
  import opened TomlRules
  import opened TomlText
  import QuotedText

  // ---------------------------------------------------------------- conditions on values

  /** A document condition, on a value. */
  predicate ValueHolds(c: Condition, v: Value)
    decreases v, 1
  {
    match v
    case Str(s) => c == BasicStrings ==> IsBasic(s)
    case Array(items) => ItemsHold(c, items)
    case Table(m) => forall k | k in m :: (c == BareKeys ==> IsBareKey(k)) && ValueHolds(c, m[k])
    case _ => true
  }

  predicate ItemsHold(c: Condition, items: seq<Value>)
    decreases items, 0
  {
    items == [] || (ValueHolds(c, items[0]) && ItemsHold(c, items[1..]))
  }

  lemma {:induction false} MeaningHolds(c: Condition, d: Doc)
    requires c == BareKeys || c == BasicStrings
    requires Holds(WellKeyed, d) && ValueHolds(c, Meaning(d))
    ensures Holds(c, d)
    decreases d, 1
  {
    match d
    case DArray(items) => MeaningItemsHold(c, items);
    case DTable(entries) => MeaningEntriesHold(c, entries);
    case _ =>
  }

  lemma {:induction false} MeaningItemsHold(c: Condition, items: seq<Doc>)
    requires c == BareKeys || c == BasicStrings
    requires HoldsAll(WellKeyed, items) && ItemsHold(c, MeaningItems(items))
    ensures HoldsAll(c, items)
    decreases items, 0
  {
    if items != [] {
      hide Meaning;
      var vs := MeaningItems(items);
      assert vs[0] == Meaning(items[0]) && vs[1..] == MeaningItems(items[1..]);
      MeaningHolds(c, items[0]);
      MeaningItemsHold(c, items[1..]);
    }
  }

  lemma TableHolds(c: Condition, m: map<string, Value>)
    ensures ValueHolds(c, Table(m)) <==> forall k | k in m :: (c == BareKeys ==> IsBareKey(k)) && ValueHolds(c, m[k])
  {
  }

  lemma EntriesCons(c: Condition, entries: seq<Entry>)
    requires entries != [] && c != WellKeyed
    requires c == BareKeys ==> IsBareKey(entries[0].key)
    requires Holds(c, entries[0].value) && HoldsEntries(c, entries[1..])
    ensures HoldsEntries(c, entries)
  {
    hide IsBareKey;
  }

  lemma {:induction false} MeaningEntriesHold(c: Condition, entries: seq<Entry>)
    requires c == BareKeys || c == BasicStrings
    requires HoldsEntries(WellKeyed, entries) && ValueHolds(c, Table(MeaningEntries(entries)))
    ensures HoldsEntries(c, entries)
    decreases entries, 0
  {
    if entries != [] {
      var e, more := entries[0], entries[1..];
      FirstKeyFresh(entries);
      UnfoldEntries(entries);
      assert HoldsEntries(WellKeyed, more) && Holds(WellKeyed, e.value);
      hide *;
      var m := MeaningEntries(entries);
      TableHolds(c, m);
      assert e.key in m && m[e.key] == Meaning(e.value);
      assert forall k | k in MeaningEntries(more) :: k in m && m[k] == MeaningEntries(more)[k];
      TableHolds(c, MeaningEntries(more));
      MeaningHolds(c, e.value);
      MeaningEntriesHold(c, more);
      EntriesCons(c, entries);
    }
  }

  // ---------------------------------------------------------------- keys that are not bare

  /** A key with a space, and a string beyond the basic plane, do not come back. */
  lemma TwoThatDoNotReadBack()
    ensures forall e | e == Entry("a b", DInt(1)) || e == Entry("k", DStr([0x1F600 as char])) ::
              HoldsEntries(Printable, [e]) && HoldsEntries(WellKeyed, [e])
              && ReadToml(DocumentText([e])) != Some(Table(MeaningEntries([e])))
  {
    hide ReadToml;
    hide DocumentText;
    hide MeaningEntries;
    var spaced, smiling := Entry("a b", DInt(1)), Entry("k", DStr([0x1F600 as char]));
    assert !IsBareChar("a b"[1]) && !QuotedText.InBasicPlane([0x1F600 as char][0]);
    assert !HoldsEntry(BareKeys, spaced) && !HoldsEntry(BasicStrings, smiling);
    assert HoldsEntry(Printable, spaced) && HoldsEntry(Printable, smiling);
    assert HoldsEntry(WellKeyed, spaced) && HoldsEntry(WellKeyed, smiling);
    assert !HoldsEntries(BareKeys, [spaced]) && !HoldsEntries(BasicStrings, [smiling]);
    ReadsBackIff([spaced]);
    ReadsBackIff([smiling]);
  }

  /** A one-entry document is one line of text, if its key holds no newline. */
  lemma OneEntryReads(k: string, d: Doc)
    requires !d.DTable? && Holds(Printable, d) && Holds(BareKeys, d) && '\n' !in k
    ensures HoldsEntries(Printable, [Entry(k, d)])
    ensures ReadToml(DocumentText([Entry(k, d)]))
         == match ParseLine(k + " = " + Format(d))
            case None => None
            case Some(l) => match Step(l, START) case None => None case Some(st) => Some(st.root)
  {
    hide *;
    var e := Entry(k, d);
    var text := k + " = " + Format(d);
    OneEntryLines(k, d);
    DocumentReadsAsLines([e]);
    ReadTomlIs(DocumentText([e]));
    FormatVisible(d);
    TextIsOneLine(text, k, Format(d));
    PhysicalIs(text);
    BlankLineReads([text], START);
    OneLineReads(text, START);
  }

  lemma OneScalarLines(e: Entry)
    requires !e.value.DTable?
    ensures DocumentLines([e]) == [KeyValue(e.key, e.value), BlankLine]
  {
    assert [e][1..] == [];
    assert ScalarsOf([]) == [] && SubtableLines([], []) == [] && [e] + [] == [e];
    assert ScalarsOf([e]) == [e] + ScalarsOf([e][1..]);
    assert SubtableLines([], [e]) == [] + SubtableLines([], [e][1..]);
    hide ScalarsOf;
    hide SubtableLines;
    assert KeyValues([e]) == [KeyValue(e.key, e.value)];
  }

  lemma OneScalarHolds(e: Entry)
    requires !e.value.DTable? && Holds(Printable, e.value)
    ensures HoldsEntries(Printable, [e])
    ensures LinesHold(Printable, [KeyValue(e.key, e.value), BlankLine])
    ensures Texts([KeyValue(e.key, e.value), BlankLine]) == [e.key + " = " + Format(e.value), ""]
  {
    hide Format;
    hide Holds;
    assert [e][1..] == [] && HoldsEntry(Printable, e);
  }

  lemma OneEntryLines(k: string, d: Doc)
    requires !d.DTable? && Holds(Printable, d)
    ensures HoldsEntries(Printable, [Entry(k, d)])
    ensures LinesHold(Printable, DocumentLines([Entry(k, d)]))
    ensures Texts(DocumentLines([Entry(k, d)])) == [k + " = " + Format(d), ""]
  {
    hide *;
    OneScalarLines(Entry(k, d));
    OneScalarHolds(Entry(k, d));
  }

  lemma TextIsOneLine(text: string, k: string, value: string)
    requires text == k + " = " + value && '\n' !in k && Visible(value)
    ensures SplitLines(text) == [text]
  {
    hide SplitLines;
    hide Visible;
    VisibleHasNoNewline(value);
    NoNewlineIn(k, " = ");
    NoNewlineIn(k + " = ", value);
    SplitPrefix(text, "");
    EmptyText();
    assert text + "" == text;
  }

  lemma VisibleHasNoNewline(t: string)
    requires Visible(t)
    ensures '\n' !in t
  {
  }

  lemma NoNewlineIn(a: string, b: string)
    requires '\n' !in a && '\n' !in b
    ensures '\n' !in a + b
  {
  }

  lemma PhysicalIs(text: string)
    requires SplitLines(text) == [text]
    ensures Physical([text, ""]) == [text] + [""]
  {
    EmptyText();
    assert [text, ""][1..] == [""] && [""][1..] == [];
    assert Physical([""]) == [""] + [];
  }

  lemma OneLineReads(text: string, st: State)
    ensures ReadLines([text], st)
         == match ParseLine(text) case None => None case Some(l) => Step(l, st)
  {
    hide ParseLine;
    hide Step;
    assert [text][1..] == [];
  }

  lemma PairLineReads(keys: string, p: Path, d: Doc)
    requires Holds(Printable, d) && Holds(BareKeys, d) && Holds(WellKeyed, d) && Holds(BasicStrings, d)
    requires keys != "" && keys[0] != '#' && keys[0] != '[' && !IsBlank(keys[0])
    requires ReadKeys(keys + (" " + ("=" + (" " + Format(d))))) == Some((p, "=" + (" " + Format(d))))
    ensures ParseLine(keys + " = " + Format(d)) == Some(PKeyValue(p, Meaning(d)))
  {
    hide *;
    var f := Format(d);
    var s := keys + " = " + f;
    assert s == keys + (" " + ("=" + (" " + f)));
    PairIs(s);
    assert ("=" + (" " + f))[1..] == " " + f && f + "" == f;
    BlankFirst(f);
    NothingEnds();
    ValueReads(d, "");
    ReadingIs(d, "");
    PairParses(s);
  }

  lemma NothingEnds()
    ensures Ends(IsNumberChar, "") && AtEnd("")
  {
  }

  lemma PairParses(s: string)
    requires s != "" && s[0] != '#' && s[0] != '[' && !IsBlank(s[0])
    ensures ParseLine(s)
         == match ReadPair(s) case None => None case Some((kv, rest)) => if AtEnd(rest) then Some(kv) else None
  {
    hide ReadPair;
    PrintedLineIsNoComment(s);
  }

  /** A key with a dot between two bare parts comes back as a nested table. */
  lemma DottedKeyReadsNested(a: string, b: string, d: Doc)
    requires IsBareKey(a) && IsBareKey(b) && !d.DTable?
    requires Holds(Printable, d) && Holds(BareKeys, d) && Holds(WellKeyed, d) && Holds(BasicStrings, d)
    ensures HoldsEntries(Printable, [Entry(a + "." + b, d)])
    ensures ReadToml(DocumentText([Entry(a + "." + b, d)]))
         == Some(Table(map[a := Table(map[b := Meaning(d)])]))
  {
    hide *;
    var rest := " " + ("=" + (" " + Format(d)));
    var k := a + "." + b;
    BareIsOneLine(a);
    BareIsOneLine(b);
    OneEntryReads(k, d);
    Closers("=" + (" " + Format(d)));
    Closers(b + rest);
    BareKeysRead(b, rest);
    BareKeysRead(a, "." + (b + rest));
    SkipOne("=" + (" " + Format(d)));
    NotBlank("=" + (" " + Format(d)));
    DotIsPlain(b + rest);
    assert k + rest == a + ("." + (b + rest));
    BareStart(a, "." + b);
    assert k == a + ("." + b) && [a] + [b] == [a, b];
    BlankIsNotBare();
    PairLineReads(k, [a, b], d);
    StepTwoKeys(a, b, Meaning(d));
  }

  lemma BareIsOneLine(k: string)
    requires IsBareKey(k)
    ensures k != "" && forall i | 0 <= i < |k| :: k[i] != '\n'
  {
  }

  lemma BlankIsNotBare()
    ensures forall c | IsBareChar(c) :: !IsBlank(c)
  {
  }

  lemma StepTwoKeys(a: string, b: string, v: Value)
    ensures var r := Step(PKeyValue([a, b], v), START);
            r.Some? && r.value.root == Table(map[a := Table(map[b := v])])
  {
    var p := [a, b];
    assert p[..1] == [a] && [] + [a] == [a] && [a][1..] == [];
    var inner := Table(map[]);
    assert Define(inner, []) == Some(inner);
    assert Define(inner, [a]) == Some(Table(map[a := inner]));
    assert Insert(inner, [], b, v) == Some(Table(map[b := v]));
    assert map[a := inner][a := Table(map[b := v])] == map[a := Table(map[b := v])];
    assert Insert(Table(map[a := inner]), [a], b, v) == Some(Table(map[a := Table(map[b := v])]));
  }

  /** A key that is a quoted string comes back without its quotes. */
  lemma QuotedKeyReadsAsContent(content: string, d: Doc)
    requires IsBasic(content) && !d.DTable?
    requires Holds(Printable, d) && Holds(BareKeys, d) && Holds(WellKeyed, d) && Holds(BasicStrings, d)
    ensures HoldsEntries(Printable, [Entry(QuotedText.Quote(content), d)])
    ensures ReadToml(DocumentText([Entry(QuotedText.Quote(content), d)])) == Some(Table(map[content := Meaning(d)]))
  {
    hide *;
    var k := QuotedText.Quote(content);
    var rest := " " + ("=" + (" " + Format(d)));
    QuoteIsOneLine(content);
    OneEntryReads(k, d);
    QuotedKeyReads(content, rest);
    SkipOne("=" + (" " + Format(d)));
    NotBlank("=" + (" " + Format(d)));
    NoBlankFirst(k + rest);
    ReadKeysOnce(k + rest, content, rest);
    PairLineReads(k, [content], d);
    StepOneKey(content, Meaning(d));
  }

  lemma NoBlankFirst(s: string)
    requires s != "" && !IsBlank(s[0])
    ensures SkipBlanks(s) == s
  {
  }

  lemma ReadKeysOnce(s: string, k: string, rest: string)
    requires SkipBlanks(s) == s && ReadKey(s) == Some((k, rest))
    requires SkipBlanks(rest) != "" && SkipBlanks(rest)[0] != '.'
    ensures ReadKeys(s) == Some(([k], SkipBlanks(rest)))
  {
    hide ReadKey;
    hide SkipBlanks;
  }

  lemma QuoteIsOneLine(content: string)
    ensures var k := QuotedText.Quote(content);
            k != "" && k[0] == QuotedText.QUOTE && '\n' !in k
            && k[0] != '#' && k[0] != '[' && !IsBlank(k[0])
  {
    EscapeVisible(content);
    var k := QuotedText.Quote(content);
    hide QuotedText.Escape;
    assert forall i | 0 <= i < |k| :: k[i] != '\n';
  }

  lemma QuotedKeyReads(content: string, rest: string)
    requires IsBasic(content)
    ensures ReadKey(QuotedText.Quote(content) + rest) == Some((content, rest))
  {
    hide QuotedText.Escape;
    hide QuotedText.ReadBody;
    var s := QuotedText.Quote(content) + rest;
    assert s[1..] == QuotedText.Escape(content) + [QuotedText.QUOTE] + rest;
    QuotedText.EscapedReadsBackIffBasic(content, rest);
  }

  lemma StepOneKey(k: string, v: Value)
    ensures var r := Step(PKeyValue([k], v), START); r.Some? && r.value.root == Table(map[k := v])
  {
    StepPlainKey(k, v, START, map[]);
    assert map[][k := v] == map[k := v];
  }

  /** A key that starts a comment takes its whole entry with it; an empty one makes the document invalid. */
  lemma CommentAndEmptyKeys(text: string, d: Doc)
    requires !d.DTable? && Holds(Printable, d) && Holds(BareKeys, d)
    requires forall i | 0 <= i < |text| :: IsPlain(text[i])
    ensures HoldsEntries(Printable, [Entry("#" + text, d)]) && HoldsEntries(Printable, [Entry("", d)])
    ensures ReadToml(DocumentText([Entry("#" + text, d)])) == Some(Table(map[]))
    ensures ReadToml(DocumentText([Entry("", d)])) == None
  {
    hide *;
    PlainIsOneLine(text);
    OneEntryReads("#" + text, d);
    OneEntryReads("", d);
    FormatVisible(d);
    CommentParses("#" + text + " = " + Format(d));
    StepBlank();
    EqualsParses(" " + Format(d));
    assert "" + " = " + Format(d) == " " + ("=" + (" " + Format(d)));
    var comment := "#" + text + " = " + Format(d);
    CommentIsPlain(text, Format(d));
  }

  lemma PlainIsOneLine(text: string)
    requires forall i | 0 <= i < |text| :: IsPlain(text[i])
    ensures '\n' !in "#" + text && '\n' !in ""
  {
  }

  lemma CommentIsPlain(text: string, value: string)
    requires (forall i | 0 <= i < |text| :: IsPlain(text[i])) && Visible(value)
    ensures var s := "#" + text + " = " + value; s[0] == '#' && forall i | 0 <= i < |s| :: IsPlain(s[i])
  {
  }

  lemma CommentParses(s: string)
    ensures s != "" && s[0] == '#' && (forall i | 0 <= i < |s| :: IsPlain(s[i])) ==> ParseLine(s) == Some(PBlank)
  {
    hide ReadPair;
    hide ReadHeader;
  }

  lemma StepBlank()
    ensures Step(PBlank, START) == Some(START) && START.root == Table(map[])
  {
  }

  lemma EqualsParses(s: string)
    ensures ParseLine(" " + ("=" + s)) == None
  {
    hide ReadValue;
    SkipOne("=" + s);
    NotBlank("=" + s);
    assert RunLength(IsBareChar, "=" + s) == 0;
    assert ReadKey("=" + s) == None;
  }

  // ---------------------------------------------------------------- merge, print, read

  lemma {:induction false} MergeKeeps(c: Condition, base: Value, overlay: Value)
    requires ValueHolds(c, base) && ValueHolds(c, overlay)
    ensures ValueHolds(c, Merge(base, overlay))
    decreases overlay
  {
    if base.Table? && overlay.Table? {
      hide IsBareKey;
      forall k | k in base.entries && k in overlay.entries
        ensures ValueHolds(c, Merge(base.entries[k], overlay.entries[k]))
      {
        MergeKeeps(c, base.entries[k], overlay.entries[k]);
      }
    }
  }

  /** Merging two configurations of bare keys and basic strings, printing the result in any insertion
      order and reading the text gives the merge. */
  lemma MaterializedOverlayReadsBack(base: Value, overlay: Value, entries: seq<Entry>)
    requires ValueHolds(BareKeys, base) && ValueHolds(BareKeys, overlay)
    requires ValueHolds(BasicStrings, base) && ValueHolds(BasicStrings, overlay)
    requires HoldsEntries(Printable, entries) && HoldsEntries(WellKeyed, entries)
    requires Table(MeaningEntries(entries)) == Merge(base, overlay)
    ensures ReadToml(DocumentText(entries)) == Some(Merge(base, overlay))
  {
    hide *;
    MergeKeeps(BareKeys, base, overlay);
    MergeKeeps(BasicStrings, base, overlay);
    MeaningEntriesHold(BareKeys, entries);
    MeaningEntriesHold(BasicStrings, entries);
    ReadsBackIff(entries);
  }
}
