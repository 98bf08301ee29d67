/** The printer's methods: the lines of a configuration as text, or the refusal of a value with no TOML
    text, each proved to write exactly the lines `TomlDocument` specifies. */
module TomlRendering {
  import opened Sequences
  import opened Wrappers
  import opened ConfigOverlay
  import opened TomlText
  import opened TomlDocument
  import opened PyStrings

  // ---------------------------------------------------------------- line texts

  function JoinKeys(path: Path): string {
    if path == [] then ""
    else if |path| == 1 then path[0]
    else path[0] + "." + JoinKeys(path[1..])
  }

  predicate LineHolds(c: Condition, l: Line) {
    match l
    case Header(p) => p != [] && (c == BareKeys ==> forall k | k in p :: IsBareKey(k))
    case KeyValue(k, d) => (c == BareKeys ==> IsBareKey(k)) && Holds(c, d)
    case BlankLine => true
  }

  predicate LinesHold(c: Condition, ls: seq<Line>) {
    forall i | 0 <= i < |ls| :: LineHolds(c, ls[i])
  }

  function LineText(l: Line): string
    requires LineHolds(Printable, l)
  {
    match l
    case Header(p) => "[" + JoinKeys(p) + "]"
    case KeyValue(k, d) => k + " = " + Format(d)
    case BlankLine => ""
  }

  function Texts(ls: seq<Line>): (ts: seq<string>)
    requires LinesHold(Printable, ls)
    ensures |ts| == |ls| && forall i | 0 <= i < |ls| :: ts[i] == LineText(ls[i])
  {
    seq(|ls|, i requires 0 <= i < |ls| => LineText(ls[i]))
  }

  // ---------------------------------------------------------------- conditions on entries reach the lines

  lemma {:induction false} KeyValuesHold(c: Condition, entries: seq<Entry>)
    ensures LinesHold(c, KeyValues(entries)) <==> HoldsEntryAll(c, entries)
  {
    if entries != [] {
      hide Holds;
      KeyValuesHold(c, entries[1..]);
      var ls := KeyValues(entries);
      assert ls[1..] == KeyValues(entries[1..]);
      assert ls[0] == KeyValue(entries[0].key, entries[0].value);
      assert LineHolds(c, ls[0]) <==> HoldsEntry(c, entries[0]);
      LinesHoldCons(c, ls);
    }
  }

  predicate HoldsEntryAll(c: Condition, entries: seq<Entry>) {
    entries == [] || (HoldsEntry(c, entries[0]) && HoldsEntryAll(c, entries[1..]))
  }

  lemma LinesHoldCons(c: Condition, ls: seq<Line>)
    requires ls != []
    ensures LinesHold(c, ls) <==> LineHolds(c, ls[0]) && LinesHold(c, ls[1..])
  {
    assert ls == [ls[0]] + ls[1..];
    LinesHoldConcat(c, [ls[0]], ls[1..]);
  }

  lemma LinesHoldConcat(c: Condition, a: seq<Line>, b: seq<Line>)
    ensures LinesHold(c, a + b) <==> LinesHold(c, a) && LinesHold(c, b)
  {
    hide LineHolds;
    if LinesHold(c, a + b) {
      forall i | 0 <= i < |a| ensures LineHolds(c, a[i]) { assert (a + b)[i] == a[i]; }
      forall i | 0 <= i < |b| ensures LineHolds(c, b[i]) { assert (a + b)[|a| + i] == b[i]; }
    }
  }

  predicate PathHolds(c: Condition, path: Path) {
    c == BareKeys ==> forall k | k in path :: IsBareKey(k)
  }

  lemma {:induction false} TableLinesHold(c: Condition, path: Path, entries: seq<Entry>)
    requires path != [] && PathHolds(c, path) && (c == BareKeys ==> HoldsEntries(c, entries))
    ensures HoldsEntries(c, entries) ==> LinesHold(c, TableLines(path, entries))
    ensures c != WellKeyed && LinesHold(c, TableLines(path, entries)) ==> HoldsEntries(c, entries)
    decreases entries, 2
  {
    hide Holds;
    hide KeyValues;
    hide ScalarLines;
    hide SubtableLines;
    ScalarLinesHold(c, entries);
    SubtableLinesHold(c, path, entries);
    LinesHoldConcat(c, [Header(path)], ScalarLines(entries));
    LinesHoldConcat(c, [Header(path)] + ScalarLines(entries), SubtableLines(path, entries));
    EntriesHoldSplit(c, entries);
    assert LineHolds(c, Header(path));
    assert LinesHold(c, [Header(path)]);
  }

  lemma ScalarLinesHold(c: Condition, entries: seq<Entry>)
    ensures LinesHold(c, ScalarLines(entries)) <==> HoldsEntryAll(c, ScalarsOf(entries))
    ensures LinesHold(c, KeyValues(ScalarsOf(entries))) <==> HoldsEntryAll(c, ScalarsOf(entries))
  {
    hide KeyValues;
    hide HoldsEntryAll;
    var scalars := ScalarsOf(entries);
    KeyValuesHold(c, scalars);
    LinesHoldConcat(c, KeyValues(scalars), if scalars == [] then [] else [BlankLine]);
    assert LineHolds(c, BlankLine);
  }

  /** The tables among the entries satisfy `c`. */
  predicate TablesHold(c: Condition, entries: seq<Entry>) {
    entries == [] || ((entries[0].value.DTable? ==> HoldsEntry(c, entries[0])) && TablesHold(c, entries[1..]))
  }

  lemma HoldsOne(c: Condition, entries: seq<Entry>)
    requires entries != []
    ensures HoldsEntries(c, entries) ==> HoldsEntry(c, entries[0]) && HoldsEntries(c, entries[1..])
    ensures c != WellKeyed && HoldsEntry(c, entries[0]) && HoldsEntries(c, entries[1..]) ==> HoldsEntries(c, entries)
    ensures TablesHold(c, entries)
            <==> (entries[0].value.DTable? ==> HoldsEntry(c, entries[0])) && TablesHold(c, entries[1..])
  {
    hide HoldsEntry;
    hide KeysDistinct;
  }

  lemma HoldsEntryAllCons(c: Condition, e: Entry, more: seq<Entry>)
    ensures HoldsEntryAll(c, [e] + more) <==> HoldsEntry(c, e) && HoldsEntryAll(c, more)
  {
    hide HoldsEntry;
    assert ([e] + more)[1..] == more;
  }

  lemma NoEntriesHold(c: Condition)
    ensures HoldsEntries(c, []) && HoldsEntryAll(c, ScalarsOf([])) && TablesHold(c, [])
  {
  }

  lemma {:induction false} EntriesHoldSplit(c: Condition, entries: seq<Entry>)
    ensures HoldsEntries(c, entries) ==> HoldsEntryAll(c, ScalarsOf(entries)) && TablesHold(c, entries)
    ensures c != WellKeyed && HoldsEntryAll(c, ScalarsOf(entries)) && TablesHold(c, entries)
            ==> HoldsEntries(c, entries)
  {
    hide *;
    if entries == [] {
      NoEntriesHold(c);
    } else {
      EntriesHoldSplit(c, entries[1..]);
      HoldsOne(c, entries);
      FiltersOne(entries);
      NoneInFront(ScalarsOf(entries[1..]));
      HoldsEntryAllCons(c, entries[0], ScalarsOf(entries[1..]));
    }
  }

  lemma SubtablesOne(path: Path, entries: seq<Entry>)
    requires entries != []
    ensures SubtableLines(path, entries)
            == (if entries[0].value.DTable? then TableLines(path + [entries[0].key], entries[0].value.entries) else [])
               + SubtableLines(path, entries[1..])
  {
    hide TableLines;
  }

  lemma NoTables(c: Condition, path: Path)
    ensures TablesHold(c, []) && LinesHold(c, SubtableLines(path, [])) && LinesHold(c, [])
  {
  }

  lemma TableHolds(c: Condition, path: Path, e: Entry)
    requires e.value.DTable? && PathHolds(c, path) && (c == BareKeys ==> HoldsEntry(c, e))
    ensures PathHolds(c, path + [e.key]) && (HoldsEntry(c, e) <==> HoldsEntries(c, e.value.entries))
  {
    hide HoldsEntries;
    hide IsBareKey;
  }

  lemma {:induction false} SubtableLinesHold(c: Condition, path: Path, entries: seq<Entry>)
    requires PathHolds(c, path) && (c == BareKeys ==> HoldsEntries(c, entries))
    ensures TablesHold(c, entries) ==> LinesHold(c, SubtableLines(path, entries))
    ensures c != WellKeyed && LinesHold(c, SubtableLines(path, entries)) ==> TablesHold(c, entries)
    decreases entries, 1
  {
    hide *;
    NoTables(c, path);
    if entries != [] {
      var e, more := entries[0], entries[1..];
      HoldsOne(c, entries);
      SubtablesOne(path, entries);
      SubtableLinesHold(c, path, more);
      var own := if e.value.DTable? then TableLines(path + [e.key], e.value.entries) else [];
      LinesHoldConcat(c, own, SubtableLines(path, more));
      if e.value.DTable? {
        TableHolds(c, path, e);
        TableLinesHold(c, path + [e.key], e.value.entries);
      }
    }
  }

  lemma DocumentLinesHold(c: Condition, entries: seq<Entry>)
    requires c == BareKeys ==> HoldsEntries(c, entries)
    ensures HoldsEntries(c, entries) ==> LinesHold(c, DocumentLines(entries))
    ensures c != WellKeyed && LinesHold(c, DocumentLines(entries)) ==> HoldsEntries(c, entries)
  {
    hide ScalarLines;
    hide SubtableLines;
    ScalarLinesHold(c, entries);
    SubtableLinesHold(c, [], entries);
    LinesHoldConcat(c, ScalarLines(entries), SubtableLines([], entries));
    EntriesHoldSplit(c, entries);
  }

  // ---------------------------------------------------------------- the printer

  datatype TypeError = UnsupportedTomlValue

  function FormatValue(d: Doc): Result<string, TypeError> {
    if Holds(Printable, d) then Ok(Format(d)) else Err(UnsupportedTomlValue)
  }

  lemma TextsConcat(a: seq<Line>, b: seq<Line>)
    requires LinesHold(Printable, a) && LinesHold(Printable, b)
    ensures LinesHold(Printable, a + b) && Texts(a + b) == Texts(a) + Texts(b)
  {
    LinesHoldConcat(Printable, a, b);
  }

  /** One `key = value` line per scalar, or the refusal of the first value with no TOML text. */
  method FormatScalars(scalars: seq<Entry>) returns (r: Result<seq<string>, TypeError>)
    ensures r == if LinesHold(Printable, KeyValues(scalars)) then Ok(Texts(KeyValues(scalars)))
                 else Err(UnsupportedTomlValue)
  {
    hide Holds;
    hide Format;
    var ls := KeyValues(scalars);
    var lines := [];
    for i := 0 to |scalars|
      invariant |lines| == i && forall j | 0 <= j < i :: LineHolds(Printable, ls[j]) && lines[j] == LineText(ls[j])
    {
      var text := FormatValue(scalars[i].value);
      if text.Err? {
        assert !LineHolds(Printable, ls[i]);
        return Err(UnsupportedTomlValue);
      }
      lines := lines + [scalars[i].key + " = " + text.value];
    }
    assert LinesHold(Printable, ls) && lines == Texts(ls);
    r := Ok(lines);
  }

  lemma {:induction false} FiltersConcat(a: seq<Entry>, b: seq<Entry>)
    ensures ScalarsOf(a + b) == ScalarsOf(a) + ScalarsOf(b) && TablesOf(a + b) == TablesOf(a) + TablesOf(b)
  {
    hide *;
    if a == [] {
      NothingFiltered();
      NoneInFront(b);
      NoneInFront(ScalarsOf(b));
      NoneInFront(TablesOf(b));
    } else {
      ConsConcat(a, b);
      FiltersOne(a + b);
      FiltersOne(a);
      FiltersConcat(a[1..], b);
      var own, table := if a[0].value.DTable? then [] else [a[0]], if a[0].value.DTable? then [a[0]] else [];
      ConcatAssociates(own, ScalarsOf(a[1..]), ScalarsOf(b));
      ConcatAssociates(table, TablesOf(a[1..]), TablesOf(b));
    }
  }

  lemma FiltersNext(entries: seq<Entry>, i: nat)
    requires i < |entries|
    ensures var e := entries[i];
            && ScalarsOf(entries[..i + 1]) == ScalarsOf(entries[..i]) + (if e.value.DTable? then [] else [e])
            && TablesOf(entries[..i + 1]) == TablesOf(entries[..i]) + (if e.value.DTable? then [e] else [])
  {
    var e := entries[i];
    assert [e][1..] == [];
    assert ScalarsOf([e]) == (if e.value.DTable? then [] else [e]) + ScalarsOf([]);
    assert TablesOf([e]) == (if e.value.DTable? then [e] else []) + TablesOf([]);
    assert entries[..i + 1] == entries[..i] + [e];
    hide ScalarsOf;
    hide TablesOf;
    FiltersConcat(entries[..i], [e]);
  }

  /** Split a table's entries into scalars and subtables, in order. */
  method SplitEntries(entries: seq<Entry>) returns (scalars: seq<Entry>, subtables: seq<Entry>)
    ensures scalars == ScalarsOf(entries) && subtables == TablesOf(entries)
  {
    scalars, subtables := [], [];
    assert ScalarsOf([]) == [] && TablesOf([]) == [] && entries[..0] == [];
    hide *;
    for i := 0 to |entries|
      invariant scalars == ScalarsOf(entries[..i]) && subtables == TablesOf(entries[..i])
    {
      FiltersNext(entries, i);
      if entries[i].value.DTable? {
        assert scalars + [] == scalars;
        subtables := subtables + [entries[i]];
      } else {
        assert subtables + [] == subtables;
        scalars := scalars + [entries[i]];
      }
    }
    assert entries[..|entries|] == entries;
  }

  /** The lines of all subtables, one after the other, from the list of table entries alone. */
  lemma {:induction false} SubtablesFromTables(path: Path, entries: seq<Entry>)
    ensures SubtableLines(path, TablesOf(entries)) == SubtableLines(path, entries)
  {
    if entries != [] {
      hide TableLines;
      SubtablesFromTables(path, entries[1..]);
      if entries[0].value.DTable? {
        assert TablesOf(entries)[1..] == TablesOf(entries[1..]);
      } else {
        assert TablesOf(entries) == TablesOf(entries[1..]);
        assert SubtableLines(path, entries) == SubtableLines(path, entries[1..]);
      }
    }
  }

  lemma SubtablesNone(path: Path, b: seq<Entry>)
    ensures SubtableLines(path, [] + b) == SubtableLines(path, []) + SubtableLines(path, b)
  {
    hide TableLines;
    assert [] + b == b && SubtableLines(path, []) == [];
  }

  lemma {:induction false} SubtablesConcat(path: Path, a: seq<Entry>, b: seq<Entry>)
    ensures SubtableLines(path, a + b) == SubtableLines(path, a) + SubtableLines(path, b)
  {
    hide *;
    if a == [] {
      SubtablesNone(path, b);
    } else {
      ConsConcat(a, b);
      SubtablesOne(path, a + b);
      SubtablesOne(path, a);
      SubtablesConcat(path, a[1..], b);
    }
  }

  lemma NoSubtables(path: Path)
    ensures SubtableLines(path, []) == [] && LinesHold(Printable, []) && Texts([]) == []
  {
  }

  lemma SubtablesNext(path: Path, subtables: seq<Entry>, i: nat)
    requires i < |subtables| && subtables[i].value.DTable?
    ensures var ls := TableLines(path + [subtables[i].key], subtables[i].value.entries);
            && SubtableLines(path, subtables[..i + 1]) == SubtableLines(path, subtables[..i]) + ls
            && (LinesHold(Printable, SubtableLines(path, subtables)) ==> LinesHold(Printable, ls))
  {
    hide TableLines;
    hide LinesHold;
    var e := subtables[i];
    var ls := TableLines(path + [e.key], e.value.entries);
    assert subtables[..i + 1] == subtables[..i] + [e] && subtables == subtables[..i + 1] + subtables[i + 1..];
    SubtablesConcat(path, subtables[..i], [e]);
    SubtablesConcat(path, subtables[..i + 1], subtables[i + 1..]);
    assert SubtableLines(path, [e]) == ls + SubtableLines(path, []);
    hide SubtableLines;
    LinesHoldConcat(Printable, SubtableLines(path, subtables[..i]), ls);
    LinesHoldConcat(Printable, SubtableLines(path, subtables[..i + 1]), SubtableLines(path, subtables[i + 1..]));
  }

  lemma TableLinesAre(path: Path, entries: seq<Entry>)
    ensures TableLines(path, entries)
            == (if path == [] then [] else [Header(path)]) + KeyValues(ScalarsOf(entries))
               + (if path == [] || ScalarsOf(entries) == [] then [] else [BlankLine]) + SubtableLines(path, entries)
  {
    hide KeyValues;
    hide ScalarsOf;
    hide SubtableLines;
    var own := KeyValues(ScalarsOf(entries));
    if path == [] {
      assert [] + own + [] == [] + own;
    } else {
      var blank := if ScalarsOf(entries) == [] then [] else [BlankLine];
      assert [Header(path)] + (own + blank) == [Header(path)] + own + blank;
    }
  }

  lemma FrontLinesHold(path: Path, scalars: seq<Entry>)
    ensures LinesHold(Printable, if path == [] then [] else [Header(path)])
    ensures LinesHold(Printable, if path == [] || scalars == [] then [] else [BlankLine])
  {
  }

  /** The parts of a table's lines, in the order they are written. */
  lemma TableParts(path: Path, entries: seq<Entry>)
    ensures var header := if path == [] then [] else [Header(path)];
            var own := KeyValues(ScalarsOf(entries));
            var blank := if path == [] || ScalarsOf(entries) == [] then [] else [BlankLine];
            var subs := SubtableLines(path, entries);
            && TableLines(path, entries) == header + own + blank + subs
            && LinesHold(Printable, header) && LinesHold(Printable, blank)
            && (LinesHold(Printable, TableLines(path, entries))
                <==> LinesHold(Printable, own) && LinesHold(Printable, subs))
  {
    hide *;
    var header := if path == [] then [] else [Header(path)];
    var own := KeyValues(ScalarsOf(entries));
    var blank := if path == [] || ScalarsOf(entries) == [] then [] else [BlankLine];
    var subs := SubtableLines(path, entries);
    TableLinesAre(path, entries);
    FrontLinesHold(path, ScalarsOf(entries));
    LinesHoldConcat(Printable, header + own + blank, subs);
    LinesHoldConcat(Printable, header + own, blank);
    LinesHoldConcat(Printable, header, own);
  }

  method RenderTable(path: Path, entries: seq<Entry>) returns (r: Result<seq<string>, TypeError>)
    ensures var ls := TableLines(path, entries);
            r == if LinesHold(Printable, ls) then Ok(Texts(ls)) else Err(UnsupportedTomlValue)
    decreases entries, 2
  {
    hide *;
    TableParts(path, entries);
    var scalars, subtables := SplitEntries(entries);
    var header := if path == [] then [] else [Header(path)];
    var blank := if path == [] || scalars == [] then [] else [BlankLine];
    ghost var own, subs := KeyValues(scalars), SubtableLines(path, entries);
    var lines := Texts(header);
    var scalarLines := FormatScalars(scalars);
    if scalarLines.Err? {
      return Err(UnsupportedTomlValue);
    }
    TextsConcat(header, own);
    TextsConcat(header + own, blank);
    lines := lines + scalarLines.value + Texts(blank);
    var subLines := RenderSubtables(path, entries, subtables);
    if subLines.Err? {
      return Err(UnsupportedTomlValue);
    }
    TextsConcat(header + own + blank, subs);
    r := Ok(lines + subLines.value);
  }

  method RenderSubtables(path: Path, ghost entries: seq<Entry>, subtables: seq<Entry>)
    returns (r: Result<seq<string>, TypeError>)
    requires subtables == TablesOf(entries)
    ensures var ls := SubtableLines(path, entries);
            r == if LinesHold(Printable, ls) then Ok(Texts(ls)) else Err(UnsupportedTomlValue)
    decreases entries, 1
  {
    hide LineText;
    hide TableLines;
    hide SubtableLines;
    hide LinesHold;
    hide Texts;
    SubtablesFromTables(path, entries);
    NoSubtables(path);
    FiltersSelect(entries);
    var lines := [];
    for i := 0 to |subtables|
      invariant LinesHold(Printable, SubtableLines(path, subtables[..i]))
      invariant lines == Texts(SubtableLines(path, subtables[..i]))
    {
      var e := subtables[i];
      assert e in subtables;
      SubtablesNext(path, subtables, i);
      ghost var ls := TableLines(path + [e.key], e.value.entries);
      var sub := RenderTable(path + [e.key], e.value.entries);
      if sub.Err? {
        return Err(UnsupportedTomlValue);
      }
      TextsConcat(SubtableLines(path, subtables[..i]), ls);
      lines := lines + sub.value;
    }
    assert subtables[..|subtables|] == subtables;
    r := Ok(lines);
  }

  function DocumentText(entries: seq<Entry>): string
    requires HoldsEntries(Printable, entries)
  {
    DocumentLinesHold(Printable, entries);
    RStrip(JoinLines(Texts(DocumentLines(entries)))) + "\n"
  }

  /** `_render_toml`: refuses exactly the configurations holding a value with no TOML text. */
  method RenderToml(entries: seq<Entry>) returns (r: Result<string, TypeError>)
    ensures r == if HoldsEntries(Printable, entries) then Ok(DocumentText(entries)) else Err(UnsupportedTomlValue)
  {
    hide LineText;
    hide KeyValues;
    hide SubtableLines;
    hide JoinLines;
    hide RStrip;
    DocumentLinesHold(Printable, entries);
    var rootScalars, tables := SplitEntries(entries);
    var own, subs := KeyValues(rootScalars), SubtableLines([], entries);
    var blank := if rootScalars == [] then [] else [BlankLine];
    assert DocumentLines(entries) == own + blank + subs;
    LinesHoldConcat(Printable, own + blank, subs);
    LinesHoldConcat(Printable, own, blank);
    assert LinesHold(Printable, blank);
    var scalarLines := FormatScalars(rootScalars);
    if scalarLines.Err? {
      return Err(UnsupportedTomlValue);
    }
    var subLines := RenderSubtables([], entries, tables);
    if subLines.Err? {
      return Err(UnsupportedTomlValue);
    }
    TextsConcat(own, blank);
    TextsConcat(own + blank, subs);
    r := Ok(RStrip(JoinLines(scalarLines.value + Texts(blank) + subLines.value)) + "\n");
  }
}
