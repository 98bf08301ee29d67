/** The printed configuration character by character: the text of every value, line and document follows from
    these equations, in which brackets, commas, equals signs and blank lines are written out. */
module TomlPrinting {
  import opened ConfigOverlay
  import opened JsonPrinting
  import opened PyStrings
  import opened Sequences
  import opened TomlDocument
  import opened TomlRendering
  import opened TomlText
  import Decimals
  import JsonText
  import QuotedText

  // ---------------------------------------------------------------- what can be printed

  lemma {:induction false} AllPrintable(items: seq<Doc>)
    ensures HoldsAll(Printable, items) <==> forall i | 0 <= i < |items| :: Holds(Printable, items[i])
  {
    if items != [] {
      AllPrintable(items[1..]);
      hide Holds;
      assert items == [items[0]] + items[1..];
      if forall i | 0 <= i < |items| :: Holds(Printable, items[i]) {
        forall i | 0 <= i < |items[1..]| ensures Holds(Printable, items[1..][i]) {
          assert items[1..][i] == items[i + 1];
        }
      }
    }
  }

  lemma {:induction false} EntriesPrintable(entries: seq<Entry>)
    ensures HoldsEntries(Printable, entries) <==> forall i | 0 <= i < |entries| :: Holds(Printable, entries[i].value)
  {
    if entries != [] {
      EntriesPrintable(entries[1..]);
      assert HoldsEntry(Printable, entries[0]) <==> Holds(Printable, entries[0].value);
      hide Holds;
      assert entries == [entries[0]] + entries[1..];
      if forall i | 0 <= i < |entries| :: Holds(Printable, entries[i].value) {
        forall i | 0 <= i < |entries[1..]| ensures Holds(Printable, entries[1..][i].value) {
          assert entries[1..][i] == entries[i + 1];
        }
      }
    }
  }

  /** A value is refused exactly when it is neither text, number, boolean, list nor table, or holds such a
      value at some depth. */
  lemma PrintableIs(d: Doc)
    ensures d.DOpaque? ==> !Holds(Printable, d)
    ensures d.DStr? || d.DBool? || d.DInt? || d.DFloat? ==> Holds(Printable, d)
    ensures d.DArray? ==> (Holds(Printable, d) <==> forall i | 0 <= i < |d.items| :: Holds(Printable, d.items[i]))
    ensures d.DTable? ==>
              (Holds(Printable, d) <==> forall i | 0 <= i < |d.entries| :: Holds(Printable, d.entries[i].value))
  {
    if d.DArray? { AllPrintable(d.items); }
    if d.DTable? { EntriesPrintable(d.entries); }
  }

  // ---------------------------------------------------------------- values

  /** Strings are printed as in JSON, numbers and words plainly. */
  lemma PlainValuesPrinted(s: string, n: int, x: FloatText)
    ensures Format(DStr(s)) == JsonText.Print(JsonText.JString(s), true)
    ensures Format(DInt(n)) == JsonText.Print(JsonText.JInt(n), true) && Format(DFloat(x)) == x
    ensures Format(DBool(true)) == "true" && Format(DBool(false)) == "false"
  {
    hide QuotedText.Escape;
    hide Decimals.IntText;
  }

  lemma ItemsOne(items: seq<Doc>)
    requires items != [] && HoldsAll(Printable, items)
    ensures HoldsAll(Printable, items[1..])
    ensures FormatItems(items)
         == if |items| == 1 then Format(items[0]) else Format(items[0]) + ", " + FormatItems(items[1..])
  {
    hide Format;
    hide Holds;
  }

  lemma {:induction false} FormatItemsConcat(a: seq<Doc>, b: seq<Doc>)
    requires a != [] && b != [] && HoldsAll(Printable, a) && HoldsAll(Printable, b)
    ensures HoldsAll(Printable, a + b) && FormatItems(a + b) == FormatItems(a) + ", " + FormatItems(b)
  {
    AllPrintable(a);
    AllPrintable(b);
    AllPrintable(a + b);
    hide *;
    ItemsOne(a);
    ItemsOne(a + b);
    ConsConcat(a, b);
    if |a| == 1 {
      assert a[1..] + b == b;
    } else {
      FormatItemsConcat(a[1..], b);
    }
  }

  /** Lists: a comma and a blank between two items, nothing around them. */
  lemma ListsPrinted(x: Doc, a: seq<Doc>, b: seq<Doc>)
    requires Holds(Printable, x) && Holds(Printable, DArray(a)) && Holds(Printable, DArray(b))
    ensures Format(DArray([])) == "[]"
    ensures Holds(Printable, DArray([x])) && Format(DArray([x])) == "[" + Format(x) + "]"
    ensures a != [] && b != [] ==>
              && Holds(Printable, DArray(a + b))
              && Format(DArray(a + b))
                 == "[" + Inside(Format(DArray(a))) + ", " + Inside(Format(DArray(b))) + "]"
  {
    hide *;
    NoneFormatted();
    ListParts(x, a, b);
    AllPrintable([x]);
    ListInside([]);
    ListInside([x]);
    ListInside(a);
    ListInside(b);
    ItemsOne([x]);
    if a != [] && b != [] {
      FormatItemsConcat(a, b);
      ListInside(a + b);
    }
  }

  lemma NoneFormatted()
    ensures HoldsAll(Printable, []) && FormatItems([]) == "" && HoldsEntries(Printable, []) && FormatPairs([]) == ""
  {
  }

  lemma ListParts(x: Doc, a: seq<Doc>, b: seq<Doc>)
    ensures Holds(Printable, DArray(a)) <==> HoldsAll(Printable, a)
    ensures Holds(Printable, DArray(b)) <==> HoldsAll(Printable, b)
    ensures Holds(Printable, DArray([x])) <==> HoldsAll(Printable, [x])
    ensures Holds(Printable, DArray([])) <==> HoldsAll(Printable, [])
  {
    hide HoldsAll;
  }

  lemma ListInside(items: seq<Doc>)
    requires HoldsAll(Printable, items)
    ensures Holds(Printable, DArray(items)) && Format(DArray(items)) == "[" + FormatItems(items) + "]"
    ensures Inside(Format(DArray(items))) == FormatItems(items)
  {
    hide FormatItems;
    hide HoldsAll;
  }

  lemma PairsOne(entries: seq<Entry>)
    requires entries != [] && HoldsEntries(Printable, entries)
    ensures HoldsEntries(Printable, entries[1..]) && Holds(Printable, entries[0].value)
    ensures FormatPairs(entries)
         == entries[0].key + " = " + Format(entries[0].value)
            + if |entries| == 1 then "" else ", " + FormatPairs(entries[1..])
  {
    hide Format;
    hide Holds;
  }

  lemma {:induction false} FormatPairsConcat(a: seq<Entry>, b: seq<Entry>)
    requires a != [] && b != [] && HoldsEntries(Printable, a) && HoldsEntries(Printable, b)
    ensures HoldsEntries(Printable, a + b) && FormatPairs(a + b) == FormatPairs(a) + ", " + FormatPairs(b)
  {
    EntriesPrintable(a);
    EntriesPrintable(b);
    EntriesPrintable(a + b);
    hide *;
    PairsOne(a);
    PairsOne(a + b);
    ConsConcat(a, b);
    if |a| == 1 {
      assert a[1..] + b == b;
    } else {
      FormatPairsConcat(a[1..], b);
    }
  }

  /** Tables inside a list: braces, a blank on either side, `key = value` pairs with a comma and a blank
      between two of them. */
  lemma InlineTablesPrinted(k: string, v: Doc, a: seq<Entry>, b: seq<Entry>)
    requires Holds(Printable, v) && Holds(Printable, DTable(a)) && Holds(Printable, DTable(b))
    ensures Format(DTable([])) == "{  }"
    ensures Holds(Printable, DTable([Entry(k, v)]))
    ensures Format(DTable([Entry(k, v)])) == "{ " + k + " = " + Format(v) + " }"
    ensures a != [] && b != [] ==>
              && Holds(Printable, DTable(a + b))
              && Format(DTable(a + b))
                 == "{ " + Inside(Inside(Format(DTable(a)))) + ", " + Inside(Inside(Format(DTable(b)))) + " }"
  {
    hide *;
    NoneFormatted();
    TableIs([]);
    TableIs([Entry(k, v)]);
    TableIs(a);
    TableIs(b);
    EntriesPrintable([Entry(k, v)]);
    PairsOne([Entry(k, v)]);
    if a != [] && b != [] {
      FormatPairsConcat(a, b);
      TableIs(a + b);
    }
  }

  lemma TableIs(entries: seq<Entry>)
    ensures Holds(Printable, DTable(entries)) <==> HoldsEntries(Printable, entries)
    ensures HoldsEntries(Printable, entries) ==>
              && Format(DTable(entries)) == "{ " + FormatPairs(entries) + " }"
              && Inside(Inside(Format(DTable(entries)))) == FormatPairs(entries)
  {
    hide FormatPairs;
    hide HoldsEntries;
    if HoldsEntries(Printable, entries) {
      var pairs := FormatPairs(entries);
      Enclosed('{', " " + pairs + " ", '}');
      Enclosed(' ', pairs, ' ');
      assert Format(DTable(entries)) == ['{'] + (" " + pairs + " ") + ['}'];
      assert [' '] + pairs + [' '] == " " + pairs + " ";
    }
  }

  lemma Enclosed(o: char, m: string, c: char)
    ensures Inside([o] + m + [c]) == m
  {
  }

  // ---------------------------------------------------------------- tables and documents

  /** The lines written for a table. */
  function Rendered(path: Path, entries: seq<Entry>): seq<string>
    requires path != [] && HoldsEntries(Printable, entries)
  {
    TableLinesHold(Printable, path, entries);
    Texts(TableLines(path, entries))
  }

  /** The lines of a document before trailing blanks are cut. */
  function RenderedDocument(entries: seq<Entry>): seq<string>
    requires HoldsEntries(Printable, entries)
  {
    DocumentLinesHold(Printable, entries);
    Texts(DocumentLines(entries))
  }

  lemma {:induction false} JoinKeysConcat(p: Path, q: Path)
    requires p != [] && q != []
    ensures JoinKeys(p + q) == JoinKeys(p) + "." + JoinKeys(q)
  {
    ConsConcat(p, q);
    if |p| == 1 {
      assert p[1..] + q == q;
    } else {
      JoinKeysConcat(p[1..], q);
    }
  }

  /** A header is the keys on the way in brackets, a dot between two of them. */
  lemma HeadersPrinted(k: string, p: Path, q: Path)
    ensures Rendered([k], []) == ["[" + k + "]"]
    ensures p != [] && q != [] ==>
              Rendered(p + q, []) == ["[" + Inside(Rendered(p, [])[0]) + "." + Inside(Rendered(q, [])[0]) + "]"]
  {
    hide *;
    HeaderOf([k]);
    OneKey(k);
    if p != [] && q != [] {
      HeaderOf(p);
      HeaderOf(q);
      HeaderOf(p + q);
      JoinKeysConcat(p, q);
      var (a, b) := (JoinKeys(p), JoinKeys(q));
      Bracketed(a);
      Bracketed(b);
      assert "[" + (a + "." + b) + "]" == "[" + a + "." + b + "]";
    }
  }

  lemma OneKey(k: string)
    ensures JoinKeys([k]) == k
  {
  }

  lemma Bracketed(m: string)
    ensures Inside("[" + m + "]") == m
  {
    Enclosed('[', m, ']');
  }

  lemma HeaderOf(path: Path)
    requires path != []
    ensures Rendered(path, []) == ["[" + JoinKeys(path) + "]"]
  {
    hide JoinKeys;
    TableLinesAre(path, []);
    assert TableLines(path, []) == [Header(path)];
  }

  predicate AllScalars(entries: seq<Entry>) {
    forall i | 0 <= i < |entries| :: !entries[i].value.DTable?
  }

  lemma {:induction false} ScalarsOfScalars(entries: seq<Entry>)
    requires AllScalars(entries)
    ensures ScalarsOf(entries) == entries
    ensures forall path :: SubtableLines(path, entries) == []
  {
    if entries != [] {
      ScalarsOfScalars(entries[1..]);
      assert entries == [entries[0]] + entries[1..];
      hide TableLines;
    }
  }

  /** One `key = value` line for each scalar, in order. */
  function ScalarTexts(scalars: seq<Entry>): (ts: seq<string>)
    requires HoldsEntries(Printable, scalars)
  {
    EntriesPrintable(scalars);
    seq(|scalars|, i requires 0 <= i < |scalars| => scalars[i].key + " = " + Format(scalars[i].value))
  }

  lemma KeyValueTexts(scalars: seq<Entry>)
    requires HoldsEntries(Printable, scalars)
    ensures LinesHold(Printable, KeyValues(scalars)) && Texts(KeyValues(scalars)) == ScalarTexts(scalars)
  {
    hide Format;
    hide Holds;
    EntriesPrintable(scalars);
  }

  lemma OneLine(l: Line)
    requires LineHolds(Printable, l)
    ensures LinesHold(Printable, [l]) && Texts([l]) == [LineText(l)]
  {
    hide LineText;
    hide LineHolds;
  }

  /** A table of scalars: its header, their lines, and a blank line if there are any; a document of scalars:
      the same without a header. */
  lemma ScalarsPrinted(path: Path, scalars: seq<Entry>)
    requires path != [] && HoldsEntries(Printable, scalars) && AllScalars(scalars)
    ensures var blank := if scalars == [] then [] else [""];
            && Rendered(path, scalars) == Rendered(path, []) + ScalarTexts(scalars) + blank
            && RenderedDocument(scalars) == ScalarTexts(scalars) + blank
  {
    var ls := KeyValues(scalars);
    var blank: seq<Line> := if scalars == [] then [] else [BlankLine];
    ScalarsOfScalars(scalars);
    TableLinesAre(path, scalars);
    DocumentLinesAre(scalars);
    HeaderOf(path);
    KeyValueTexts(scalars);
    OneLine(Header(path));
    OneLine(BlankLine);
    assert LineText(BlankLine) == "" && LineText(Header(path)) == "[" + JoinKeys(path) + "]";
    hide *;
    assert TableLines(path, scalars) == [Header(path)] + ls + blank;
    assert DocumentLines(scalars) == ls + blank;
    TextsConcat(ls, blank);
    TextsConcat([Header(path)], ls);
    TextsConcat([Header(path)] + ls, blank);
  }

  lemma DocumentLinesAre(entries: seq<Entry>)
    ensures DocumentLines(entries)
         == KeyValues(ScalarsOf(entries)) + (if ScalarsOf(entries) == [] then [] else [BlankLine])
            + SubtableLines([], entries)
  {
    hide KeyValues;
    hide SubtableLines;
  }

  /** A table behind the rest: its own lines, under the longer path, come last. */
  lemma TrailingTablePrinted(path: Path, entries: seq<Entry>, k: string, sub: seq<Entry>)
    requires path != [] && HoldsEntries(Printable, entries) && HoldsEntries(Printable, sub)
    ensures var all := entries + [Entry(k, DTable(sub))];
            && HoldsEntries(Printable, all)
            && Rendered(path, all) == Rendered(path, entries) + Rendered(path + [k], sub)
            && RenderedDocument(all) == RenderedDocument(entries) + Rendered([k], sub)
  {
    hide *;
    var e := Entry(k, DTable(sub));
    EntriesConcat(entries, [e]);
    TableIs(sub);
    OneEntry(e);
    LinesHeld(path, entries);
    LinesHeld(path + [k], sub);
    LinesHeld([k], sub);
    LinesHeld(path, entries + [e]);
    LastTable(path, entries, k, sub);
    TextsConcat(TableLines(path, entries), TableLines(path + [k], sub));
    TextsConcat(DocumentLines(entries), TableLines([k], sub));
  }

  lemma LinesHeld(path: Path, entries: seq<Entry>)
    requires path != [] && HoldsEntries(Printable, entries)
    ensures LinesHold(Printable, TableLines(path, entries)) && LinesHold(Printable, DocumentLines(entries))
    ensures Rendered(path, entries) == Texts(TableLines(path, entries))
    ensures RenderedDocument(entries) == Texts(DocumentLines(entries))
  {
    TableLinesHold(Printable, path, entries);
    DocumentLinesHold(Printable, entries);
    hide TableLines;
    hide DocumentLines;
  }

  lemma EntriesConcat(a: seq<Entry>, b: seq<Entry>)
    ensures HoldsEntries(Printable, a + b) <==> HoldsEntries(Printable, a) && HoldsEntries(Printable, b)
  {
    hide Holds;
    hide HoldsEntries;
    EntriesPrintable(a);
    EntriesPrintable(b);
    EntriesPrintable(a + b);
    if HoldsEntries(Printable, a + b) {
      forall i | 0 <= i < |a| ensures Holds(Printable, a[i].value) { assert (a + b)[i] == a[i]; }
      forall i | 0 <= i < |b| ensures Holds(Printable, b[i].value) { assert (a + b)[|a| + i] == b[i]; }
    }
  }

  lemma OneEntry(e: Entry)
    ensures HoldsEntries(Printable, [e]) <==> Holds(Printable, e.value)
    ensures ScalarsOf([e]) == (if e.value.DTable? then [] else [e])
    ensures TablesOf([e]) == (if e.value.DTable? then [e] else [])
    ensures forall path :: SubtableLines(path, [e])
              == if e.value.DTable? then TableLines(path + [e.key], e.value.entries) else []
  {
    EntriesPrintable([e]);
    hide TableLines;
    hide Holds;
    hide HoldsEntries;
    forall path ensures SubtableLines(path, [e])
              == if e.value.DTable? then TableLines(path + [e.key], e.value.entries) else []
    {
      SubtablesOne(path, [e]);
      assert SubtableLines(path, [e][1..]) == [];
    }
  }

  lemma LastTable(path: Path, entries: seq<Entry>, k: string, sub: seq<Entry>)
    ensures var all := entries + [Entry(k, DTable(sub))];
            && TableLines(path, all) == TableLines(path, entries) + TableLines(path + [k], sub)
            && DocumentLines(all) == DocumentLines(entries) + TableLines([k], sub)
  {
    hide *;
    var e := Entry(k, DTable(sub));
    var all := entries + [e];
    FiltersConcat(entries, [e]);
    OneEntry(e);
    SubtablesConcat(path, entries, [e]);
    SubtablesConcat([], entries, [e]);
    assert ScalarsOf(all) == ScalarsOf(entries) + [] == ScalarsOf(entries);
    TableLinesAre(path, all);
    TableLinesAre(path, entries);
    DocumentLinesAre(all);
    DocumentLinesAre(entries);
    NoneInFront([k]);
    ConcatAssociates(
      (if path == [] then [] else [Header(path)]) + KeyValues(ScalarsOf(entries))
      + (if path == [] || ScalarsOf(entries) == [] then [] else [BlankLine]),
      SubtableLines(path, entries), TableLines(path + [k], sub));
    ConcatAssociates(KeyValues(ScalarsOf(entries)) + (if ScalarsOf(entries) == [] then [] else [BlankLine]),
                     SubtableLines([], entries), TableLines([k], sub));
  }

  /** A scalar behind a table is printed in front of it, with the other scalars. */
  lemma ScalarMovesUp(path: Path, entries: seq<Entry>, table: Entry, scalar: Entry)
    requires path != [] && HoldsEntries(Printable, entries + [table, scalar])
    requires table.value.DTable? && !scalar.value.DTable?
    ensures HoldsEntries(Printable, entries + [scalar, table])
    ensures Rendered(path, entries + [table, scalar]) == Rendered(path, entries + [scalar, table])
    ensures RenderedDocument(entries + [table, scalar]) == RenderedDocument(entries + [scalar, table])
  {
    hide *;
    var a, b := entries + [table, scalar], entries + [scalar, table];
    EntriesConcat(entries, [table, scalar]);
    EntriesConcat(entries, [scalar, table]);
    EntriesConcat([table], [scalar]);
    EntriesConcat([scalar], [table]);
    assert [table] + [scalar] == [table, scalar] && [scalar] + [table] == [scalar, table];
    SameFilters(path, entries, table, scalar);
    SameFilters([], entries, table, scalar);
    TableLinesAre(path, a);
    TableLinesAre(path, b);
    DocumentLinesAre(a);
    DocumentLinesAre(b);
    LinesHeld(path, a);
    LinesHeld(path, b);
  }

  lemma SameFilters(path: Path, entries: seq<Entry>, table: Entry, scalar: Entry)
    requires table.value.DTable? && !scalar.value.DTable?
    ensures ScalarsOf(entries + [table, scalar]) == ScalarsOf(entries + [scalar, table])
    ensures SubtableLines(path, entries + [table, scalar]) == SubtableLines(path, entries + [scalar, table])
  {
    hide *;
    OneEntry(table);
    OneEntry(scalar);
    assert [table] + [scalar] == [table, scalar] && [scalar] + [table] == [scalar, table];
    FiltersConcat(entries, [table, scalar]);
    FiltersConcat(entries, [scalar, table]);
    FiltersConcat([table], [scalar]);
    FiltersConcat([scalar], [table]);
    SubtablesConcat(path, entries, [table, scalar]);
    SubtablesConcat(path, entries, [scalar, table]);
    SubtablesConcat(path, [table], [scalar]);
    SubtablesConcat(path, [scalar], [table]);
  }

  /** The document: its lines with a newline between two of them, trailing whitespace cut, one newline at the
      end. */
  lemma DocumentPrinted(entries: seq<Entry>, text: string, blanks: string)
    requires HoldsEntries(Printable, entries) && JoinLines(RenderedDocument(entries)) == text + blanks
    requires AllSpace(blanks) && (text != "" ==> !IsSpace(text[|text| - 1]))
    ensures DocumentText(entries) == text + "\n"
  {
    hide IsSpace;
    hide RenderedDocument;
    hide JoinLines;
    assert DocumentText(entries) == RStrip(JoinLines(RenderedDocument(entries))) + "\n" by {
      DocumentTextIs(entries);
    }
    if text == "" {
      RStripAll(blanks);
    } else {
      RStripSpaces(text, blanks);
    }
  }

  lemma DocumentTextIs(entries: seq<Entry>)
    requires HoldsEntries(Printable, entries)
    ensures DocumentText(entries) == RStrip(JoinLines(RenderedDocument(entries))) + "\n"
  {
    hide RStrip;
    hide JoinLines;
    hide DocumentLines;
  }

  lemma RStripAll(s: string)
    requires AllSpace(s)
    ensures RStrip("" + s) == ""
  {
    hide IsSpace;
    assert "" + s == s;
    var t := RStrip(s);
    assert t == s[..|t|];
  }
}
