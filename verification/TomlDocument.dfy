/** The configuration printer as lines, and the proof that under the document rules those lines mean the
    configuration that was printed. */
module TomlDocument {
  import opened Sequences
  import opened Wrappers
  import opened ConfigOverlay
  import opened TomlReader
  import opened TomlRules
  import opened TomlText

  // ---------------------------------------------------------------- the printed lines

  datatype Line = Header(path: Path) | KeyValue(key: string, value: Doc) | BlankLine

  function ScalarsOf(entries: seq<Entry>): seq<Entry> {
    if entries == [] then []
    else (if entries[0].value.DTable? then [] else [entries[0]]) + ScalarsOf(entries[1..])
  }

  function TablesOf(entries: seq<Entry>): seq<Entry> {
    if entries == [] then []
    else (if entries[0].value.DTable? then [entries[0]] else []) + TablesOf(entries[1..])
  }

  function KeyValues(entries: seq<Entry>): (ls: seq<Line>)
    ensures |ls| == |entries| && forall i | 0 <= i < |entries| :: ls[i] == KeyValue(entries[i].key, entries[i].value)
  {
    seq(|entries|, i requires 0 <= i < |entries| => KeyValue(entries[i].key, entries[i].value))
  }

  /** The own scalars of a table, set off by a blank line if there are any. */
  function ScalarLines(entries: seq<Entry>): seq<Line> {
    var scalars := ScalarsOf(entries);
    KeyValues(scalars) + if scalars == [] then [] else [BlankLine]
  }

  /** The lines of `_render_table`; the root path gets neither header nor blank line. */
  function TableLines(path: Path, entries: seq<Entry>): seq<Line>
    decreases entries, 1
  {
    (if path == [] then [] else [Header(path)])
    + (if path == [] then KeyValues(ScalarsOf(entries)) else ScalarLines(entries))
    + SubtableLines(path, entries)
  }

  function SubtableLines(path: Path, entries: seq<Entry>): seq<Line>
    decreases entries, 0
  {
    if entries == [] then []
    else
      (if entries[0].value.DTable? then TableLines(path + [entries[0].key], entries[0].value.entries) else [])
      + SubtableLines(path, entries[1..])
  }

  function DocumentLines(entries: seq<Entry>): seq<Line> {
    ScalarLines(entries) + SubtableLines([], entries)
  }

  // ---------------------------------------------------------------- what lines mean

  function ParsedLine(l: Line): Parsed {
    match l
    case Header(p) => PHeader(p)
    case KeyValue(k, d) => PKeyValue([k], Meaning(d))
    case BlankLine => PBlank
  }

  function ParsedLines(ls: seq<Line>): (ps: seq<Parsed>)
    ensures |ps| == |ls| && forall i | 0 <= i < |ls| :: ps[i] == ParsedLine(ls[i])
  {
    if ls == [] then [] else [ParsedLine(ls[0])] + ParsedLines(ls[1..])
  }

  // ---------------------------------------------------------------- running the printed lines

  lemma ParsedConcat(a: seq<Line>, b: seq<Line>)
    ensures ParsedLines(a + b) == ParsedLines(a) + ParsedLines(b)
  {
  }

  lemma RunLines(a: seq<Line>, b: seq<Line>, st: State)
    ensures Run(ParsedLines(a + b), st)
            == match Run(ParsedLines(a), st) case None => None case Some(next) => Run(ParsedLines(b), next)
  {
    ParsedConcat(a, b);
    RunConcat(ParsedLines(a), ParsedLines(b), st);
  }

  lemma RunLine(l: Line, st: State)
    ensures Run(ParsedLines([l]), st) == Step(ParsedLine(l), st)
  {
    hide Step;
    assert ParsedLines([l]) == [ParsedLine(l)];
    RunOne(ParsedLine(l), st);
  }

  lemma KeyValuesRun(scalars: seq<Entry>, st: State, m: map<string, Value>)
    requires At(st.root, st.current) == Some(Table(m)) && Plain(st)
    requires KeysDistinct(scalars) && NoTables(scalars) && FreshKeys(scalars, m)
    ensures Run(ParsedLines(KeyValues(scalars)), st)
            == Some(st.(root := Put(st.root, st.current, Table(m + MeaningEntries(scalars)))))
  {
    hide Run;
    hide Put;
    hide At;
    hide MeaningEntries;
    hide Meaning;
    assert ParsedLines(KeyValues(scalars)) == PairsOf(scalars);
    PairsRun(scalars, st, m);
  }

  lemma {:induction false} FiltersSelect(entries: seq<Entry>)
    ensures forall x | x in ScalarsOf(entries) :: x in entries && !x.value.DTable?
    ensures forall x | x in TablesOf(entries) :: x in entries && x.value.DTable?
  {
    if entries != [] { FiltersSelect(entries[1..]); }
  }

  lemma FirstKeyAlone(entries: seq<Entry>)
    requires entries != [] && KeysDistinct(entries)
    ensures KeysDistinct(entries[1..]) && forall x | x in entries[1..] :: x.key != entries[0].key
  {
    forall x | x in entries[1..] ensures x.key != entries[0].key {
      var i :| 0 <= i < |entries[1..]| && entries[1..][i] == x;
      assert entries[i + 1] == x;
    }
  }

  lemma ConsDistinct(e: Entry, more: seq<Entry>)
    requires KeysDistinct(more) && forall x | x in more :: x.key != e.key
    ensures KeysDistinct([e] + more)
  {
  }

  lemma FiltersOne(entries: seq<Entry>)
    requires entries != []
    ensures var e, more := entries[0], entries[1..];
            && ScalarsOf(entries) == (if e.value.DTable? then [] else [e]) + ScalarsOf(more)
            && TablesOf(entries) == (if e.value.DTable? then [e] else []) + TablesOf(more)
  {
  }

  /** A key among neither the scalars nor the tables of the rest stands apart in both filters. */
  lemma FirstFiltered(e: Entry, scalars: seq<Entry>, tables: seq<Entry>)
    requires KeysDistinct(scalars) && KeysDistinct(tables)
    requires forall x | x in scalars || x in tables :: x.key != e.key
    requires forall x, y | x in scalars && y in tables :: x.key != y.key
    ensures KeysDistinct([e] + scalars) && KeysDistinct([e] + tables)
    ensures forall x, y | x in [e] + scalars && y in tables :: x.key != y.key
    ensures forall x, y | x in scalars && y in [e] + tables :: x.key != y.key
  {
    hide KeysDistinct;
    ConsDistinct(e, scalars);
    ConsDistinct(e, tables);
  }

  lemma NothingFiltered()
    ensures KeysDistinct(ScalarsOf([])) && KeysDistinct(TablesOf([]))
    ensures ScalarsOf([]) == TablesOf([]) == []
  {
  }

  lemma {:induction false} FiltersDistinct(entries: seq<Entry>)
    requires KeysDistinct(entries)
    ensures KeysDistinct(ScalarsOf(entries)) && KeysDistinct(TablesOf(entries))
    ensures forall x, y | x in ScalarsOf(entries) && y in TablesOf(entries) :: x.key != y.key
  {
    hide *;
    if entries == [] {
      NothingFiltered();
    } else {
      var e, more := entries[0], entries[1..];
      FirstKeyAlone(entries);
      FiltersDistinct(more);
      FiltersSelect(more);
      FiltersOne(entries);
      FirstFiltered(e, ScalarsOf(more), TablesOf(more));
      NoneInFront(ScalarsOf(more));
      NoneInFront(TablesOf(more));
    }
  }

  lemma {:induction false} FiltersMeaning(entries: seq<Entry>)
    requires KeysDistinct(entries)
    ensures MeaningEntries(ScalarsOf(entries)) + MeaningEntries(TablesOf(entries)) == MeaningEntries(entries)
  {
    if entries != [] {
      hide Meaning;
      hide KeysDistinct;
      var e, more := entries[0], entries[1..];
      FirstKeyAlone(entries);
      FiltersMeaning(more);
      FiltersSelect(more);
      var s, t := ScalarsOf(more), TablesOf(more);
      KeyAbsent(e.key, s);
      ConsMeaning(e, more);
      ConsMeaning(e, s);
      ConsMeaning(e, t);
      hide MeaningEntries;
      MapMove(e.key, MeaningEntry(e), MeaningEntries(s), MeaningEntries(t));
      assert [e] + more == entries;
      assert ScalarsOf(entries) == if e.value.DTable? then s else [e] + s;
      assert TablesOf(entries) == if e.value.DTable? then [e] + t else t;
    }
  }

  lemma ConsMeaning(e: Entry, more: seq<Entry>)
    ensures MeaningEntries([e] + more) == map[e.key := MeaningEntry(e)] + MeaningEntries(more)
  {
    assert ([e] + more)[1..] == more;
  }

  lemma MapMove(k: string, x: Value, s: map<string, Value>, t: map<string, Value>)
    requires k !in s
    ensures map[k := x] + (s + t) == s + (map[k := x] + t) == (map[k := x] + s) + t
  {
  }

  lemma KeyAbsent(k: string, entries: seq<Entry>)
    requires forall x | x in entries :: x.key != k
    ensures k !in MeaningEntries(entries)
  {
    hide MeaningEntries;
    MeaningKeys(entries);
  }

  /** A table's scalars, then its subtables, are all its entries. */
  lemma EntriesSplit(entries: seq<Entry>)
    requires KeysDistinct(entries)
    ensures MeaningEntries(ScalarsOf(entries)) + MeaningEntries(TablesOf(entries)) == MeaningEntries(entries)
    ensures NoTables(ScalarsOf(entries)) && KeysDistinct(ScalarsOf(entries)) && KeysDistinct(TablesOf(entries))
    ensures FreshKeys(TablesOf(entries), MeaningEntries(ScalarsOf(entries)))
    ensures forall i | 0 <= i < |TablesOf(entries)| :: TablesOf(entries)[i] in entries
  {
    hide MeaningEntries;
    hide ScalarsOf;
    hide TablesOf;
    FiltersSelect(entries);
    FiltersDistinct(entries);
    FiltersMeaning(entries);
    MeaningKeys(ScalarsOf(entries));
    assert forall i | 0 <= i < |ScalarsOf(entries)| :: ScalarsOf(entries)[i] in ScalarsOf(entries);
    assert forall i | 0 <= i < |TablesOf(entries)| :: TablesOf(entries)[i] in TablesOf(entries);
  }

  /** Nothing is closed and no dotted key was seen: printed documents keep it so. */
  predicate Plain(st: State) {
    st.closed == {} && st.dotted == {}
  }

  /** No header seen so far lies at or below `path`. */
  ghost predicate Unheaded(st: State, path: Path) {
    forall q | q in st.defined :: !(path <= q)
  }

  ghost predicate AddsHeadersBelow(st: State, next: State, path: Path) {
    forall q | q in next.defined :: q in st.defined || path <= q
  }

  lemma {:induction false} TableRun(path: Path, k: string, entries: seq<Entry>, st: State, m: map<string, Value>)
    requires At(st.root, path) == Some(Table(m)) && k !in m && Plain(st) && Unheaded(st, path + [k])
    requires HoldsEntries(WellKeyed, entries) && KeysDistinct(entries)
    ensures var r := Run(ParsedLines(TableLines(path + [k], entries)), st);
            && r.Some? && Plain(r.value) && AddsHeadersBelow(st, r.value, path + [k])
            && r.value.root == Put(st.root, path, Table(m[k := Table(MeaningEntries(entries))]))
    decreases entries, 2
  {
    hide Step;
    hide Put;
    hide At;
    hide SubtableLines;
    hide ScalarLines;
    hide MeaningEntries;
    var here := path + [k];
    var s := MeaningEntries(ScalarsOf(entries));
    var whole := Table(MeaningEntries(entries));
    TableTrees(st.root, path, m, k, Table(s), whole);
    var st1 := State(Put(st.root, path, Table(m[k := Table(map[])])), here, st.defined + {here}, {}, {});
    var st2 := st1.(root := Put(st1.root, here, Table(s)));
    StepNewHeader(path, k, st, m);
    ScalarLinesRun(entries, st1);
    EntriesSplit(entries);
    SubtablesRun(here, entries, st2, s);
    RunLines([Header(here)], ScalarLines(entries), st);
    RunLine(Header(here), st);
    RunLines([Header(here)] + ScalarLines(entries), SubtableLines(here, entries), st);
  }

  /** Making a table, filling in its scalars and then all its entries is making it with all of them. */
  lemma TableTrees(root: Value, path: Path, m: map<string, Value>, k: string, scalars: Value, whole: Value)
    requires At(root, path) == Some(Table(m)) && k !in m
    ensures var r1, here := Put(root, path, Table(m[k := Table(map[])])), path + [k];
            && At(r1, here) == Some(Table(map[]))
            && At(Put(r1, here, scalars), here) == Some(scalars)
            && Put(Put(r1, here, scalars), here, whole) == Put(root, path, Table(m[k := whole]))
  {
    hide Put;
    hide At;
    var here := path + [k];
    var m1 := m[k := Table(map[])];
    var r1 := Put(root, path, Table(m1));
    PutThenAt(root, path, Table(m1));
    PutBelow(r1, path, m1, k, whole);
    PutThenAt(r1, here, scalars);
    PutTwice(r1, here, scalars, whole);
    PutTwice(root, path, Table(m1), Table(m[k := whole]));
    assert m1[k := whole] == m[k := whole];
  }

  lemma ScalarLinesRun(entries: seq<Entry>, st: State)
    requires KeysDistinct(entries) && At(st.root, st.current) == Some(Table(map[])) && Plain(st)
    ensures Run(ParsedLines(ScalarLines(entries)), st)
            == Some(st.(root := Put(st.root, st.current, Table(MeaningEntries(ScalarsOf(entries))))))
  {
    hide Put;
    hide At;
    hide MeaningEntries;
    hide KeyValues;
    var scalars := ScalarsOf(entries);
    EntriesSplit(entries);
    KeyValuesRun(scalars, st, map[]);
    assert map[] + MeaningEntries(scalars) == MeaningEntries(scalars);
    if scalars == [] {
      assert ScalarLines(entries) == KeyValues(scalars);
    } else {
      RunLines(KeyValues(scalars), [BlankLine], st);
      RunLine(BlankLine, st.(root := Put(st.root, st.current, Table(MeaningEntries(scalars)))));
    }
  }

  ghost predicate AddsHeadersBelowTables(st: State, next: State, path: Path, entries: seq<Entry>) {
    forall q | q in next.defined ::
      q in st.defined || exists i | 0 <= i < |entries| :: path + [entries[i].key] <= q
  }

  lemma {:induction false} SubtablesRun(path: Path, entries: seq<Entry>, st: State, m: map<string, Value>)
    requires At(st.root, path) == Some(Table(m)) && Plain(st)
    requires HoldsEntries(WellKeyed, entries) && KeysDistinct(entries)
    requires FreshKeys(TablesOf(entries), m)
    requires forall i | 0 <= i < |entries| :: Unheaded(st, path + [entries[i].key])
    ensures var r := Run(ParsedLines(SubtableLines(path, entries)), st);
            && r.Some? && Plain(r.value) && AddsHeadersBelowTables(st, r.value, path, entries)
            && r.value.root == Put(st.root, path, Table(m + MeaningEntries(TablesOf(entries))))
    decreases entries, 1
  {
    if entries == [] {
      PutSame(st.root, path);
      assert m + map[] == m;
    } else {
      hide Step;
      hide Put;
      hide At;
      hide TableLines;
      hide Meaning;
      hide Holds;
      var e, more := entries[0], entries[1..];
      assert HoldsEntries(WellKeyed, more) && KeysDistinct(more);
      forall i | 0 <= i < |more| ensures more[i].key != e.key && Unheaded(st, path + [more[i].key]) {
        assert more[i] == entries[i + 1];
      }
      if e.value.DTable? {
        assert TablesOf(entries) == [e] + TablesOf(more);
        TablesStep(path, entries, st, m);
      } else {
        assert TablesOf(entries) == TablesOf(more);
        SubtablesRun(path, more, st, m);
        assert SubtableLines(path, entries) == SubtableLines(path, more);
        var next := Run(ParsedLines(SubtableLines(path, entries)), st).value;
        WidenHeaders(st, next, path, entries);
      }
    }
  }

  lemma WidenHeaders(st: State, next: State, path: Path, entries: seq<Entry>)
    requires entries != [] && AddsHeadersBelowTables(st, next, path, entries[1..])
    ensures AddsHeadersBelowTables(st, next, path, entries)
  {
    forall q | q in next.defined && q !in st.defined
      ensures exists i | 0 <= i < |entries| :: path + [entries[i].key] <= q
    {
      var i :| 0 <= i < |entries[1..]| && path + [entries[1..][i].key] <= q;
      assert entries[i + 1] == entries[1..][i];
    }
  }

  /** Headers added below one table are not below a sibling. */
  lemma SiblingsUnheaded(st: State, next: State, path: Path, k: string, other: string)
    requires k != other && Unheaded(st, path + [other]) && AddsHeadersBelow(st, next, path + [k])
    ensures Unheaded(next, path + [other])
  {
    forall q | q in next.defined ensures !(path + [other] <= q) {
      if q !in st.defined {
        assert q[|path|] == k && (path + [other])[|path|] == other;
      }
    }
  }

  lemma {:induction false} TablesStep(path: Path, entries: seq<Entry>, st: State, m: map<string, Value>)
    requires entries != [] && entries[0].value.DTable?
    requires At(st.root, path) == Some(Table(m)) && Plain(st)
    requires HoldsEntries(WellKeyed, entries) && KeysDistinct(entries)
    requires TablesOf(entries) == [entries[0]] + TablesOf(entries[1..]) && FreshKeys(TablesOf(entries), m)
    requires forall i | 0 <= i < |entries| :: Unheaded(st, path + [entries[i].key])
    ensures var r := Run(ParsedLines(SubtableLines(path, entries)), st);
            && r.Some? && Plain(r.value) && AddsHeadersBelowTables(st, r.value, path, entries)
            && r.value.root == Put(st.root, path, Table(m + MeaningEntries(TablesOf(entries))))
    decreases entries, 0
  {
    hide Step;
    hide Put;
    hide At;
    hide TableLines;
    hide MeaningEntries;
    var e, more := entries[0], entries[1..];
    var sub := e.value.entries;
    SubtableWellKeyed(entries);
    assert TablesOf(entries)[0] == e;
    TableRun(path, e.key, sub, st, m);
    var st1 := Run(ParsedLines(TableLines(path + [e.key], sub)), st).value;
    var m1 := m[e.key := Table(MeaningEntries(sub))];
    PutThenAt(st.root, path, Table(m1));
    TablesFresh(entries, m, m1);
    forall i | 0 <= i < |more| ensures Unheaded(st1, path + [more[i].key]) {
      assert more[i] == entries[i + 1];
      SiblingsUnheaded(st, st1, path, e.key, more[i].key);
    }
    SubtablesRun(path, more, st1, m1);
    var st2 := Run(ParsedLines(SubtableLines(path, more)), st1).value;
    RunLines(TableLines(path + [e.key], sub), SubtableLines(path, more), st);
    PutTwice(st.root, path, Table(m1), Table(m1 + MeaningEntries(TablesOf(more))));
    TablesMeaning(entries, m);
    ChainHeaders(st, st1, st2, path, entries);
  }

  lemma SubtableWellKeyed(entries: seq<Entry>)
    requires entries != [] && entries[0].value.DTable? && HoldsEntries(WellKeyed, entries)
    ensures HoldsEntries(WellKeyed, entries[0].value.entries) && KeysDistinct(entries[0].value.entries)
    ensures HoldsEntries(WellKeyed, entries[1..])
  {
    assert HoldsEntry(WellKeyed, entries[0]) && Holds(WellKeyed, entries[0].value);
  }

  lemma FreshBehind(e: Entry, tables: seq<Entry>, m: map<string, Value>, m1: map<string, Value>)
    requires FreshKeys([e] + tables, m) && m1.Keys == m.Keys + {e.key} && forall x | x in tables :: x.key != e.key
    ensures FreshKeys(tables, m1)
  {
    forall i | 0 <= i < |tables| ensures tables[i].key !in m1 {
      assert ([e] + tables)[i + 1] == tables[i] && tables[i] in tables;
    }
  }

  lemma TablesFresh(entries: seq<Entry>, m: map<string, Value>, m1: map<string, Value>)
    requires entries != [] && KeysDistinct(entries) && TablesOf(entries) == [entries[0]] + TablesOf(entries[1..])
    requires FreshKeys(TablesOf(entries), m) && m1.Keys == m.Keys + {entries[0].key}
    ensures FreshKeys(TablesOf(entries[1..]), m1) && KeysDistinct(entries[1..])
  {
    hide *;
    FirstKeyAlone(entries);
    FiltersSelect(entries[1..]);
    FreshBehind(entries[0], TablesOf(entries[1..]), m, m1);
  }

  lemma TablesMeaning(entries: seq<Entry>, m: map<string, Value>)
    requires entries != [] && entries[0].value.DTable?
    requires TablesOf(entries) == [entries[0]] + TablesOf(entries[1..])
    ensures m[entries[0].key := Table(MeaningEntries(entries[0].value.entries))]
            + MeaningEntries(TablesOf(entries[1..]))
            == m + MeaningEntries(TablesOf(entries))
  {
    var t := TablesOf(entries);
    assert t[1..] == TablesOf(entries[1..]);
    UnfoldEntries(t);
    hide MeaningEntries;
  }

  lemma ChainHeaders(st: State, st1: State, st2: State, path: Path, entries: seq<Entry>)
    requires entries != [] && AddsHeadersBelow(st, st1, path + [entries[0].key])
    requires AddsHeadersBelowTables(st1, st2, path, entries[1..])
    ensures AddsHeadersBelowTables(st, st2, path, entries)
  {
    WidenHeaders(st1, st2, path, entries);
  }

  /** The printed lines, read under the document rules, rebuild the printed configuration. */
  lemma LinesMeanDocument(entries: seq<Entry>)
    requires HoldsEntries(WellKeyed, entries) && KeysDistinct(entries)
    ensures Interpret(ParsedLines(DocumentLines(entries))) == Some(Table(MeaningEntries(entries)))
  {
    hide Step;
    hide ScalarLines;
    hide SubtableLines;
    ScalarLinesRun(entries, START);
    var s := MeaningEntries(ScalarsOf(entries));
    EntriesSplit(entries);
    SubtablesRun([], entries, START.(root := Table(s)), s);
    RunLines(ScalarLines(entries), SubtableLines([], entries), START);
  }
}
