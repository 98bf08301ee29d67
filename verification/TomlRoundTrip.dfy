/** The reader undoes the printer exactly for bare keys and strings within the basic plane.  Of a printed
    document the reader gets no more than the document weighs, and a configuration with a key that is not
    bare costs more than that. */
module TomlRoundTrip {
  import opened Wrappers
  import opened ConfigOverlay
  import opened TomlReader
  import opened TomlRules
  import opened TomlText
  import opened TomlDocument
  import opened TomlRendering
  import opened TomlReadBack
  import opened TomlKeyLocality
  import opened TomlPrintedWeights
  import opened TomlWeights

  // ---------------------------------------------------------------- lines of text

  function WeightOf(ts: seq<string>): nat {
    if ts == [] then 0 else Weight(ts[0]) + WeightOf(ts[1..])
  }

  lemma {:induction false} WeightOfConcat(a: seq<string>, b: seq<string>)
    ensures WeightOf(a + b) == WeightOf(a) + WeightOf(b)
  {
    hide Weight;
    if a == [] {
      assert a + b == b;
    } else {
      assert (a + b)[1..] == a[1..] + b;
      WeightOfConcat(a[1..], b);
    }
  }

  lemma WeightCons(c: char, s: string)
    ensures Weight([c] + s) == CharWeight(c) + Weight(s)
  {
    hide Weight;
    WeightConcat([c], s);
    WeightOfOne(c);
  }

  /** Splitting into lines loses the newlines and nothing else. */
  lemma {:induction false} SplitWeight(s: string)
    ensures WeightOf(SplitLines(s)) <= Weight(s)
  {
    hide Weight;
    hide CharWeight;
    if s == "" {
      assert Weight("") == 0 by { StructureWeighsNothing(); }
    } else {
      var c, more := s[0], s[1..];
      assert s == [c] + more;
      SplitWeight(more);
      SplitCons(c, more);
      WeightCons(c, more);
      var ts := SplitLines(more);
      if c == '\n' {
        StructureWeighsNothing();
        WeightOfConcat([""], ts);
      } else {
        WeightCons(c, ts[0]);
        WeightOfConcat([[c] + ts[0]], ts[1..]);
        assert ts == [ts[0]] + ts[1..];
      }
    }
  }

  lemma ReadHeaderPrice(s: string)
    ensures ReadHeader(s).Some? ==> PathPrice(ReadHeader(s).value) <= Weight(s)
  {
    hide Weight;
    hide PathPrice;
    hide ReadKeys;
    hide AtEnd;
    ReadKeysPrice(s);
  }

  lemma ParseLinePrice(s: string)
    ensures ParseLine(s).Some? ==> ParsedPrice(ParseLine(s).value) <= Weight(s)
  {
    hide Weight;
    hide Price;
    hide PathPrice;
    hide ReadHeader;
    hide ReadPair;
    hide AtEnd;
    hide SkipBlanks;
    SkipBlanksWeight(s);
    var t := SkipBlanks(s);
    ReadPairPrice(t);
    assert t == "" ==> AtEnd(t) by { NothingIsTheEnd(); }
    if t != "" {
      TailWeight(t);
      ReadHeaderPrice(t[1..]);
    }
  }

  lemma NothingIsTheEnd()
    ensures AtEnd("")
  {
  }

  /** Whatever the lines are, the state they leave costs no more than they add. */
  lemma {:induction false} ReadLinesPrice(ts: seq<string>, st: State)
    requires TableAt(st.root, st.current) && ReadLines(ts, st).Some?
    ensures var next := ReadLines(ts, st).value;
            Grows(st, next) && Price(next.root) <= Price(st.root) + WeightOf(ts)
  {
    if ts != [] {
      hide TableAt;
      hide Weight;
      hide Price;
      hide ParsedPrice;
      hide ParseLine;
      hide Step;
      ParseLinePrice(ts[0]);
      var l := ParseLine(ts[0]).value;
      StepPrice(l, st);
      var st1 := Step(l, st).value;
      ReadLinesPrice(ts[1..], st1);
      GrowsOn(st, st1, ReadLines(ts, st).value);
    }
  }

  // ---------------------------------------------------------------- printed headers

  function HeaderText(p: Path): string {
    "[" + JoinKeys(p) + "]"
  }

  function FirstLine(s: string): string {
    SplitLines(s)[0]
  }

  /** The header of `p`, or as much of it as stands before a newline, was read and made a table. */
  ghost predicate Known(st: State, p: Path) {
    p == [] ||
    var l := ParseLine(FirstLine(HeaderText(p)));
    l.Some? && l.value.PHeader? && l.value.path in st.defined && TableAt(st.root, l.value.path)
  }

  lemma KnownGrows(st: State, next: State, p: Path)
    requires Known(st, p) && Grows(st, next)
    ensures Known(next, p)
  {
    hide ParseLine;
    hide TableAt;
  }

  lemma {:induction false} SplitPrefix(a: string, b: string)
    requires '\n' !in a
    ensures SplitLines(a + b) == [a + SplitLines(b)[0]] + SplitLines(b)[1..]
  {
    hide SplitLines;
    if a == "" {
      assert a + b == b && "" + SplitLines(b)[0] == SplitLines(b)[0];
      assert SplitLines(b) == [SplitLines(b)[0]] + SplitLines(b)[1..];
    } else {
      assert a + b == [a[0]] + (a[1..] + b);
      SplitPrefix(a[1..], b);
      SplitCons(a[0], a[1..] + b);
      assert a[0] in a;
      assert [a[0]] + (a[1..] + SplitLines(b)[0]) == a + SplitLines(b)[0];
    }
  }

  lemma {:induction false} SameFirstLine(a: string, b: string, c: string)
    requires '\n' in a
    ensures FirstLine(a + b) == FirstLine(a + c)
  {
    hide SplitLines;
    assert a + b == [a[0]] + (a[1..] + b) && a + c == [a[0]] + (a[1..] + c);
    SplitCons(a[0], a[1..] + b);
    SplitCons(a[0], a[1..] + c);
    if a[0] != '\n' {
      assert a == [a[0]] + a[1..];
      SameFirstLine(a[1..], b, c);
    }
  }

  lemma {:induction false} JoinKeysSnoc(path: Path, k: string)
    ensures JoinKeys(path + [k]) == if path == [] then k else JoinKeys(path) + ("." + k)
  {
    if path == [] {
      assert path + [k] == [k];
    } else {
      assert (path + [k])[1..] == path[1..] + [k];
      JoinKeysSnoc(path[1..], k);
      if |path| > 1 {
        var a, b := path[0] + ".", JoinKeys(path[1..]);
        assert a + (b + ("." + k)) == a + b + ("." + k);
      } else {
        assert path[0] + "." + k == path[0] + ("." + k);
      }
    }
  }

  lemma BracketParses(s: string)
    ensures ParseLine("[" + s) == match ReadHeader(s) case None => None case Some(p) => Some(PHeader(p))
  {
    hide ReadHeader;
    hide ReadPair;
    var t := "[" + s;
    assert t[1..] == s;
    PrintedLineIsNoComment(t);
  }

  lemma HeaderParts(s: string)
    requires ReadHeader(s).Some?
    ensures ReadKeys(s).Some?
    ensures var (p, u) := ReadKeys(s).value; p == ReadHeader(s).value && u != "" && u[0] == ']'
  {
    hide ReadKeys;
    hide AtEnd;
  }

  lemma ContinuedDot(p: Path, z: string)
    ensures Continued(p, "." + z)
            == match ReadKeys(z) case None => None case Some((more, rest)) => Some((p + more, rest))
  {
    hide ReadKeys;
    assert ("." + z)[1..] == z;
  }

  lemma ContinuedBracket(p: Path, rest: string)
    ensures Continued(p, "]" + rest) == Some((p, "]" + rest))
  {
    hide ReadKeys;
  }

  lemma PathExtended(q: Path, more: Path)
    ensures q <= q + more && (q + more)[|q|..] == more
  {
  }

  /** `y + u` is `j` and a closing bracket: `u` is that bracket alone, or `j` goes on into it. */
  lemma BracketLast(j: string, y: string, u: string, z: string)
    requires j + "]" == y + u && u != ""
    ensures |u| == 1 ==> y == j
    ensures var front := u[..|u| - 1]; j + ("." + z) == y + (front + ("." + z))
  {
    var front := u[..|u| - 1];
    assert u == front + [u[|u| - 1]];
    assert (j + "]")[..|j|] == j;
    assert (y + u)[..|j|] == y + front;
    assert y + front + ("." + z) == y + (front + ("." + z));
    if |u| == 1 { assert y + front == y; }
  }

  lemma BracketFirst(u: string, tail: string)
    requires |u| >= 2 && u[0] == ']'
    ensures var other := u[..|u| - 1] + tail; other == "]" + other[1..]
  {
  }

  /** A header that goes on after a dot reads as the same path, cut off by a comment, or as that path with
      keys beyond it that the further text pays for. */
  lemma HeaderContinues(j: string, z: string, q: Path)
    requires ReadHeader(j + "]") == Some(q)
    ensures var h := ReadHeader(j + ("." + z));
            h.Some? ==> h.value == q || (q <= h.value && PathPrice(h.value[|q|..]) <= Weight(z))
  {
    hide *;
    var s := j + "]";
    HeaderParts(s);
    var u := ReadKeys(s).value.1;
    var y := s[..|s| - |u|];
    if ReadHeader(j + ("." + z)).Some? {
      HeaderParts(j + ("." + z));
      if |u| == 1 {
        DotStops(z);
        ReadKeysLocal(s, "." + z);
        BracketLast(j, y, u, z);
        ContinuedDot(q, z);
        ReadKeysPrice(z);
        PathExtended(q, ReadKeys(z).value.0);
      } else {
        var other := u[..|u| - 1] + ("." + z);
        BracketFirst(u, "." + z);
        BracketStops(other[1..]);
        ReadKeysLocal(s, other);
        BracketLast(j, y, u, z);
        ContinuedBracket(q, other[1..]);
      }
    }
  }

  lemma BracketStops(rest: string)
    ensures Stops("]" + rest)
  {
  }

  lemma ReadLinesFirst(ts: seq<string>, st: State)
    requires ts != [] && ReadLines(ts, st).Some?
    ensures var l := ParseLine(ts[0]);
            && l.Some? && Step(l.value, st).Some?
            && ReadLines(ts, st) == ReadLines(ts[1..], Step(l.value, st).value)
  {
    hide ParseLine;
    hide Step;
  }

  /** The first line of a header below a known one adds no more than its own part of the path. */
  lemma FirstLinePrice(path: Path, k: string, st: State)
    requires Known(st, path)
    requires var l := ParseLine(FirstLine(HeaderText(path + [k]))); l.Some? && Step(l.value, st).Some?
    requires TableAt(st.root, st.current)
    ensures var l := ParseLine(FirstLine(HeaderText(path + [k]))).value;
            var next := Step(l, st).value;
            && l.PHeader? && Grows(st, next) && l.path in next.defined && TableAt(next.root, l.path)
            && Price(next.root) <= Price(st.root) + Weight(FirstLine(k + "]"))
    ensures SplitLines(HeaderText(path + [k]))[1..] == SplitLines(k + "]")[1..]
  {
    hide *;
    var ts := SplitLines(k + "]");
    var z := ts[0];
    HeaderTextSnoc(path, k);
    FirstLineIs(k + "]");
    FirstLineIs(HeaderText(path + [k]));
    RootIsTable(st.root, st.current);
    if path == [] {
      NoNewline("");
      SplitPrefix("[", k + "]");
      BracketParses(z);
      ReadHeaderPrice(z);
      var h := ReadHeader(z).value;
      assert [] + h == h;
      StepHeaderPrice([], h, st);
    } else {
      var j := JoinKeys(path);
      KnownIs(st, path);
      HeaderTextIs(path);
      FirstLineIs(HeaderText(path));
      if '\n' in j {
        NewlineWithin(j);
        SameFirstLine("[" + j, "]", "." + (k + "]"));
        HeadedTwice(st, ParseLine(FirstLine(HeaderText(path))).value.path);
      } else {
        NoNewline(j);
        OneLine("[" + j + "]");
        assert "[" + j + "]" == "[" + (j + "]") && "[" + j + "." + (k + "]") == "[" + j + ("." + (k + "]"));
        BracketParses(j + "]");
        var q := ReadHeader(j + "]").value;
        SplitPrefix("[" + j + ".", k + "]");
        assert "[" + j + "." + z == "[" + (j + ("." + z));
        BracketParses(j + ("." + z));
        HeaderContinues(j, z, q);
        HeadedTwice(st, q);
        var h := ReadHeader(j + ("." + z)).value;
        assert h == q + h[|q|..];
        StepHeaderPrice(q, h[|q|..], st);
      }
    }
  }

  lemma NoNewline(j: string)
    requires '\n' !in j
    ensures '\n' !in "[" && '\n' !in "[" + j + "]" && '\n' !in "[" + j + "."
  {
  }

  lemma NewlineWithin(j: string)
    requires '\n' in j
    ensures '\n' in "[" + j
  {
  }

  lemma OneLine(s: string)
    requires '\n' !in s
    ensures FirstLine(s) == s
  {
    hide SplitLines;
    SplitPrefix(s, "");
    EmptyText();
    assert s + "" == s;
  }

  lemma HeadedTwice(st: State, p: Path)
    requires p in st.defined
    ensures Step(PHeader(p), st) == None
  {
  }

  lemma KnownIs(st: State, p: Path)
    requires Known(st, p) && p != []
    ensures var l := ParseLine(FirstLine(HeaderText(p)));
            l.Some? && l.value.PHeader? && l.value.path in st.defined && TableAt(st.root, l.value.path)
  {
  }

  lemma FirstLineIs(s: string)
    ensures FirstLine(s) == SplitLines(s)[0]
  {
  }

  lemma HeaderTextIs(p: Path)
    ensures HeaderText(p) == "[" + JoinKeys(p) + "]"
  {
  }

  lemma HeaderTextSnoc(path: Path, k: string)
    ensures HeaderText(path + [k])
         == if path == [] then "[" + (k + "]") else "[" + JoinKeys(path) + ("." + (k + "]"))
  {
    hide JoinKeys;
    JoinKeysSnoc(path, k);
    if path == [] {
      assert "[" + k + "]" == "[" + (k + "]");
    } else {
      var j := JoinKeys(path);
      assert "[" + (j + ("." + k)) + "]" == "[" + j + ("." + (k + "]"));
    }
  }

  // ---------------------------------------------------------------- printed lines

  /** What a printed line may add: of a header, its last key. */
  function Charge(l: Line): nat
    requires LineHolds(Printable, l)
  {
    match l
    case BlankLine => 0
    case Header(p) => Weight(p[|p| - 1])
    case KeyValue(k, d) => Weight(k) + Weight(Format(d))
  }

  function Charges(ls: seq<Line>): nat
    requires LinesHold(Printable, ls)
  {
    if ls == [] then 0 else Charge(ls[0]) + Charges(ls[1..])
  }

  lemma {:induction false} ChargesConcat(a: seq<Line>, b: seq<Line>)
    requires LinesHold(Printable, a) && LinesHold(Printable, b)
    ensures LinesHold(Printable, a + b) && Charges(a + b) == Charges(a) + Charges(b)
  {
    hide LineHolds;
    hide Charge;
    LinesHoldConcat(Printable, a, b);
    if a == [] {
      assert a + b == b;
    } else {
      assert (a + b)[1..] == a[1..] + b;
      ChargesConcat(a[1..], b);
    }
  }

  /** Each header's parent is the root or was headed before. */
  predicate Parented(ls: seq<Line>, seen: set<Path>) {
    ls == [] ||
    match ls[0]
    case Header(p) => p != [] && (|p| == 1 || p[..|p| - 1] in seen) && Parented(ls[1..], seen + {p})
    case _ => Parented(ls[1..], seen)
  }

  lemma {:induction false} ParentedMore(ls: seq<Line>, seen: set<Path>, more: set<Path>)
    requires Parented(ls, seen) && seen <= more
    ensures Parented(ls, more)
  {
    if ls != [] {
      match ls[0]
      case Header(p) => ParentedMore(ls[1..], seen + {p}, more + {p});
      case _ => ParentedMore(ls[1..], seen, more);
    }
  }

  lemma {:induction false} ParentedConcat(a: seq<Line>, b: seq<Line>, seen: set<Path>)
    requires Parented(a, seen) && Parented(b, seen)
    ensures Parented(a + b, seen)
  {
    if a == [] {
      assert a + b == b;
    } else {
      assert (a + b)[0] == a[0] && (a + b)[1..] == a[1..] + b;
      match a[0]
      case Header(p) =>
        ParentedMore(b, seen, seen + {p});
        ParentedConcat(a[1..], b, seen + {p});
      case _ => ParentedConcat(a[1..], b, seen);
    }
  }

  lemma {:induction false} NoHeadersParented(ls: seq<Line>, seen: set<Path>)
    requires forall i | 0 <= i < |ls| :: !ls[i].Header?
    ensures Parented(ls, seen)
  {
    if ls != [] { NoHeadersParented(ls[1..], seen); }
  }

  lemma ScalarLinesParented(entries: seq<Entry>, seen: set<Path>)
    ensures Parented(ScalarLines(entries), seen)
  {
    hide Parented;
    hide ScalarsOf;
    NoHeadersParented(ScalarLines(entries), seen);
  }

  lemma {:induction false} SubtablesParented(path: Path, entries: seq<Entry>, seen: set<Path>)
    requires path == [] || path in seen
    ensures Parented(SubtableLines(path, entries), seen)
    decreases entries, 1
  {
    if entries != [] {
      hide TableLines;
      hide Parented;
      var e, more := entries[0], entries[1..];
      SubtablesParented(path, more, seen);
      if e.value.DTable? {
        TableParented(path, e.key, e.value.entries, seen);
        ParentedConcat(TableLines(path + [e.key], e.value.entries), SubtableLines(path, more), seen);
      } else {
        assert SubtableLines(path, entries) == SubtableLines(path, more);
      }
    }
  }

  lemma {:induction false} TableParented(path: Path, k: string, entries: seq<Entry>, seen: set<Path>)
    requires path == [] || path in seen
    ensures Parented(TableLines(path + [k], entries), seen)
    decreases entries, 2
  {
    hide *;
    var here := path + [k];
    ScalarLinesParented(entries, seen + {here});
    SubtablesParented(here, entries, seen + {here});
    ParentedConcat(ScalarLines(entries), SubtableLines(here, entries), seen + {here});
    TableLinesAre(here, entries);
    HeaderParented(path, k, ScalarLines(entries) + SubtableLines(here, entries), seen);
  }

  lemma TableLinesAre(here: Path, entries: seq<Entry>)
    requires here != []
    ensures TableLines(here, entries) == [Header(here)] + (ScalarLines(entries) + SubtableLines(here, entries))
  {
    hide ScalarLines;
    hide SubtableLines;
  }

  lemma HeaderParented(path: Path, k: string, inside: seq<Line>, seen: set<Path>)
    requires (path == [] || path in seen) && Parented(inside, seen + {path + [k]})
    ensures Parented([Header(path + [k])] + inside, seen)
  {
    var here := path + [k];
    var ls := [Header(here)] + inside;
    assert ls[0] == Header(here) && ls[1..] == inside && here[..|here| - 1] == path;
  }

  lemma DocumentParented(entries: seq<Entry>)
    ensures Parented(DocumentLines(entries), {})
  {
    hide Parented;
    hide ScalarLines;
    hide SubtableLines;
    ScalarLinesParented(entries, {});
    SubtablesParented([], entries, {});
    ParentedConcat(ScalarLines(entries), SubtableLines([], entries), {});
  }

  /** A header, whatever newlines are in it. */
  lemma HeaderPrice(path: Path, k: string, st: State)
    requires Known(st, path) && TableAt(st.root, st.current)
    requires ReadLines(SplitLines(HeaderText(path + [k])), st).Some?
    ensures var next := ReadLines(SplitLines(HeaderText(path + [k])), st).value;
            Grows(st, next) && Known(next, path + [k]) && Price(next.root) <= Price(st.root) + Weight(k)
  {
    hide *;
    var text := HeaderText(path + [k]);
    var ts, us := SplitLines(text), SplitLines(k + "]");
    ReadLinesFirst(ts, st);
    FirstLineIs(text);
    FirstLineIs(k + "]");
    FirstLinePrice(path, k, st);
    var l := ParseLine(ts[0]).value;
    var st1 := Step(l, st).value;
    GrowsGivesTable(st, st1);
    ReadLinesPrice(ts[1..], st1);
    var next := ReadLines(ts, st).value;
    GrowsOn(st, st1, next);
    KnownOf(st1, path + [k]);
    KnownGrows(st1, next, path + [k]);
    SplitWeight(k + "]");
    WeightConcat(k, "]");
    StructureWeighsNothing();
    assert us == [us[0]] + us[1..];
    WeightOfConcat([us[0]], us[1..]);
    WeightOfLine(us[0]);
  }

  lemma WeightOfLine(t: string)
    ensures WeightOf([t]) == Weight(t)
  {
    hide Weight;
  }

  lemma GrowsGivesTable(st: State, next: State)
    requires Grows(st, next)
    ensures TableAt(next.root, next.current)
  {
  }

  lemma KnownOf(st: State, p: Path)
    requires var l := ParseLine(FirstLine(HeaderText(p)));
             l.Some? && l.value.PHeader? && l.value.path in st.defined && TableAt(st.root, l.value.path)
    ensures Known(st, p)
  {
  }

  /** One printed line, read as however many lines of text it makes. */
  lemma PrintedLinePrice(l: Line, st: State)
    requires LineHolds(Printable, l) && TableAt(st.root, st.current)
    requires l.Header? ==> Known(st, l.path[..|l.path| - 1])
    requires ReadLines(SplitLines(LineText(l)), st).Some?
    ensures var next := ReadLines(SplitLines(LineText(l)), st).value;
            Grows(st, next) && Price(next.root) <= Price(st.root) + Charge(l)
            && (l.Header? ==> Known(next, l.path))
  {
    hide Weight;
    hide Price;
    hide Known;
    hide Grows;
    hide TableAt;
    hide ReadLines;
    hide SplitLines;
    hide Format;
    hide Holds;
    hide JoinKeys;
    match l
    case Header(p) =>
      assert p == p[..|p| - 1] + [p[|p| - 1]];
      HeaderPrice(p[..|p| - 1], p[|p| - 1], st);
    case KeyValue(k, d) =>
      ReadLinesPrice(SplitLines(LineText(l)), st);
      SplitWeight(LineText(l));
      StructureWeighsNothing();
      WeightConcat(k + " = ", Format(d));
      WeightConcat(k, " = ");
    case BlankLine =>
      ReadLinesPrice(SplitLines(LineText(l)), st);
      SplitWeight(LineText(l));
      StructureWeighsNothing();
  }

  /** All printed lines together add no more than their charges. */
  lemma {:induction false} PrintedLinesPrice(ls: seq<Line>, seen: set<Path>, st: State)
    requires LinesHold(Printable, ls) && Parented(ls, seen) && TableAt(st.root, st.current)
    requires forall p | p in seen :: Known(st, p)
    requires ReadLines(Physical(Texts(ls)), st).Some?
    ensures Price(ReadLines(Physical(Texts(ls)), st).value.root) <= Price(st.root) + Charges(ls)
  {
    if ls != [] {
      hide *;
      LinesHoldCons(Printable, ls);
      var l, more := ls[0], ls[1..];
      var own := SplitLines(LineText(l));
      FirstPrinted(ls);
      ReadLinesConcat(own, Physical(Texts(more)), st);
      ParentKnown(ls, seen, st);
      PrintedLinePrice(l, st);
      var next := ReadLines(own, st).value;
      GrowsGivesTable(st, next);
      forall p | p in seen ensures Known(next, p) { KnownGrows(st, next, p); }
      PrintedLinesPrice(more, if l.Header? then seen + {l.path} else seen, next);
    }
  }

  lemma FirstPrinted(ls: seq<Line>)
    requires ls != [] && LinesHold(Printable, ls)
    ensures LineHolds(Printable, ls[0]) && LinesHold(Printable, ls[1..])
    ensures Physical(Texts(ls)) == SplitLines(LineText(ls[0])) + Physical(Texts(ls[1..]))
    ensures Charges(ls) == Charge(ls[0]) + Charges(ls[1..])
  {
    hide LineText;
    hide LineHolds;
    hide SplitLines;
    hide Charge;
    LinesHoldCons(Printable, ls);
    assert Texts(ls)[1..] == Texts(ls[1..]) && Texts(ls)[0] == LineText(ls[0]);
  }

  lemma ParentKnown(ls: seq<Line>, seen: set<Path>, st: State)
    requires ls != [] && Parented(ls, seen) && forall p | p in seen :: Known(st, p)
    ensures ls[0].Header? ==> ls[0].path != [] && Known(st, ls[0].path[..|ls[0].path| - 1])
    ensures Parented(ls[1..], if ls[0].Header? then seen + {ls[0].path} else seen)
  {
    if ls[0].Header? && |ls[0].path| == 1 { assert ls[0].path[..0] == []; }
  }

  // ---------------------------------------------------------------- the charges are the entries' weight

  lemma {:induction false} KeyValuesCharges(scalars: seq<Entry>)
    requires HoldsEntries(Printable, scalars)
    ensures LinesHold(Printable, KeyValues(scalars)) && Charges(KeyValues(scalars)) == EntriesWeight(scalars)
  {
    if scalars != [] {
      hide Weight;
      hide Holds;
      hide Format;
      KeyValuesCharges(scalars[1..]);
      var ls := KeyValues(scalars);
      assert ls[1..] == KeyValues(scalars[1..]);
      LinesHoldCons(Printable, ls);
    }
  }

  lemma ScalarLinesCharges(entries: seq<Entry>)
    requires HoldsEntries(Printable, ScalarsOf(entries))
    ensures LinesHold(Printable, ScalarLines(entries))
    ensures Charges(ScalarLines(entries)) == EntriesWeight(ScalarsOf(entries))
  {
    hide Weight;
    hide Holds;
    hide EntriesWeight;
    hide HoldsEntries;
    hide ScalarsOf;
    var scalars := ScalarsOf(entries);
    KeyValuesCharges(scalars);
    if scalars == [] {
      assert ScalarLines(entries) == KeyValues(scalars);
    } else {
      var blank := [BlankLine];
      assert LinesHold(Printable, blank) && Charges(blank) == 0 by { assert blank[1..] == []; }
      ChargesConcat(KeyValues(scalars), blank);
    }
  }

  lemma {:induction false} ScalarsPrintable(entries: seq<Entry>)
    requires HoldsEntries(Printable, entries)
    ensures HoldsEntries(Printable, ScalarsOf(entries))
  {
    if entries != [] {
      hide HoldsEntry;
      ScalarsPrintable(entries[1..]);
      if !entries[0].value.DTable? {
        assert ScalarsOf(entries)[1..] == ScalarsOf(entries[1..]);
      } else {
        assert ScalarsOf(entries) == ScalarsOf(entries[1..]);
      }
    }
  }

  /** Scalars and sub-tables together are charged what the entries weigh. */
  lemma {:induction false} EntriesCharges(path: Path, entries: seq<Entry>)
    requires HoldsEntries(Printable, entries)
    ensures HoldsEntries(Printable, ScalarsOf(entries)) && LinesHold(Printable, SubtableLines(path, entries))
    ensures EntriesWeight(ScalarsOf(entries)) + Charges(SubtableLines(path, entries)) == EntriesWeight(entries)
    decreases entries, 1
  {
    ScalarsPrintable(entries);
    if entries != [] {
      hide TableLines;
      hide Weight;
      hide Format;
      hide Holds;
      var e, more := entries[0], entries[1..];
      EntriesCharges(path, more);
      if e.value.DTable? {
        assert ScalarsOf(entries) == ScalarsOf(more);
        TableCharges(path, e);
        ChargesConcat(TableLines(path + [e.key], e.value.entries), SubtableLines(path, more));
      } else {
        assert ScalarsOf(entries)[1..] == ScalarsOf(more);
        assert SubtableLines(path, entries) == SubtableLines(path, more);
      }
    }
  }

  lemma {:induction false} TableCharges(path: Path, e: Entry)
    requires HoldsEntry(Printable, e) && e.value.DTable?
    ensures var ls := TableLines(path + [e.key], e.value.entries);
            LinesHold(Printable, ls) && Charges(ls) == EntryWeight(e)
    decreases e, 0
  {
    hide Weight;
    hide SubtableLines;
    hide ScalarLines;
    hide Format;
    var here, entries := path + [e.key], e.value.entries;
    assert HoldsEntries(Printable, entries);
    hide HoldsEntries;
    EntriesCharges(here, entries);
    ScalarLinesCharges(entries);
    TableWeight(entries);
    var head := [Header(here)];
    assert LinesHold(Printable, head) && Charges(head) == Weight(e.key) by { assert head[1..] == []; }
    ChargesConcat(head, ScalarLines(entries));
    ChargesConcat(head + ScalarLines(entries), SubtableLines(here, entries));
  }

  lemma DocumentCharges(entries: seq<Entry>)
    requires HoldsEntries(Printable, entries)
    ensures LinesHold(Printable, DocumentLines(entries)) && Charges(DocumentLines(entries)) == EntriesWeight(entries)
  {
    hide SubtableLines;
    hide ScalarLines;
    hide EntriesWeight;
    hide HoldsEntries;
    EntriesCharges([], entries);
    ScalarLinesCharges(entries);
    ChargesConcat(ScalarLines(entries), SubtableLines([], entries));
  }

  // ---------------------------------------------------------------- the theorem

  /** Whatever its keys, a printed document reads as something that costs no more than it weighs. */
  lemma DocumentPrice(entries: seq<Entry>)
    requires HoldsEntries(Printable, entries)
    ensures ReadToml(DocumentText(entries)).Some? ==>
              Price(ReadToml(DocumentText(entries)).value) <= EntriesWeight(entries)
  {
    hide *;
    DocumentReadsAsLines(entries);
    DocumentParented(entries);
    DocumentCharges(entries);
    ReadTomlIs(DocumentText(entries));
    StartIsEmpty();
    if ReadToml(DocumentText(entries)).Some? {
      PrintedLinesPrice(DocumentLines(entries), {}, START);
    }
  }

  lemma StartIsEmpty()
    ensures TableAt(START.root, START.current) && Price(START.root) == 0
  {
    EmptyTablePrice();
  }

  /** Reading the printed text gives the printed configuration back exactly when its keys are bare and
      its strings lie within the basic multilingual plane. */
  lemma ReadsBackIff(entries: seq<Entry>)
    requires HoldsEntries(Printable, entries) && HoldsEntries(WellKeyed, entries)
    ensures ReadToml(DocumentText(entries)) == Some(Table(MeaningEntries(entries)))
            <==> HoldsEntries(BareKeys, entries) && HoldsEntries(BasicStrings, entries)
  {
    WellKeyedDistinct(entries);
    hide *;
    if HoldsEntries(BareKeys, entries) {
      TextReads(entries);
    } else {
      DocumentPrice(entries);
      EntriesCost(entries);
      PenaltyIs();
    }
  }

  lemma WellKeyedDistinct(entries: seq<Entry>)
    requires HoldsEntries(WellKeyed, entries)
    ensures KeysDistinct(entries)
  {
  }
}
