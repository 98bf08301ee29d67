/** What the lines of a TOML document mean together: the rules of TOML v1.0.0 ("Keys", "Table", "Inline
    Table") for headers, dotted keys and inline tables, as a state machine over parsed lines. */
module TomlRules {
  import opened Wrappers
  import opened ConfigOverlay

  datatype Parsed = PHeader(path: Path) | PKeyValue(path: Path, value: Value) | PBlank

  /** The tree so far, the table being filled, the headers seen, the tables closed to extension because they
      were written inline, and those made by dotted keys, which no header may open again. */
  datatype State = State(root: Value, current: Path, defined: set<Path>, closed: set<Path>, dotted: set<Path>)

  /** Enter a table at `path`, making it and any missing table above it. */
  function Define(v: Value, path: Path): Option<Value>
    decreases |path|
  {
    if !v.Table? then None
    else if path == [] then Some(v)
    else
      var child := if path[0] in v.entries then v.entries[path[0]] else Table(map[]);
      match Define(child, path[1..])
      case None => None
      case Some(sub) => Some(Table(v.entries[path[0] := sub]))
  }

  /** Write a key that is not there yet into the table at `path`. */
  function Insert(v: Value, path: Path, key: string, x: Value): Option<Value>
    decreases |path|
  {
    if !v.Table? then None
    else if path == [] then if key in v.entries then None else Some(Table(v.entries[key := x]))
    else if path[0] !in v.entries then None
    else
      match Insert(v.entries[path[0]], path[1..], key, x)
      case None => None
      case Some(sub) => Some(Table(v.entries[path[0] := sub]))
  }

  /** `path` is a closed table or lies inside one. */
  predicate Inside(path: Path, closed: set<Path>) {
    exists n | 0 < n <= |path| :: path[..n] in closed
  }

  /** The tables a dotted key passes through. */
  function Passed(current: Path, path: Path): set<Path> {
    set n | 0 < n < |path| :: current + path[..n]
  }

  /** A table is headed at most once and not at all if a dotted key made it, inline tables and scalars are
      never extended. */
  function StepHeader(p: Path, st: State): Option<State> {
    if p == [] || p in st.defined || p in st.dotted || Inside(p, st.closed) then None
    else
      match Define(st.root, p)
      case None => None
      case Some(r) => Some(State(r, p, st.defined + {p}, st.closed, st.dotted))
  }

  /** A dotted key makes the tables it passes through, but passes through no headed one; the key itself is
      new. */
  function StepKeyValue(p: Path, v: Value, st: State): Option<State> {
    if p == [] then None
    else
      var front, key := st.current + p[..|p| - 1], p[|p| - 1];
      if Inside(front, st.closed) || Passed(st.current, p) * st.defined != {} then None
      else
        match Define(st.root, front)
        case None => None
        case Some(made) =>
          match Insert(made, front, key, v)
          case None => None
          case Some(r) =>
            Some(st.(root := r, closed := st.closed + if v.Table? then {front + [key]} else {},
                     dotted := st.dotted + Passed(st.current, p)))
  }

  function Step(line: Parsed, st: State): Option<State> {
    match line
    case PBlank => Some(st)
    case PHeader(p) => StepHeader(p, st)
    case PKeyValue(p, v) => StepKeyValue(p, v, st)
  }

  function Run(lines: seq<Parsed>, st: State): Option<State> {
    if lines == [] then Some(st)
    else
      match Step(lines[0], st)
      case None => None
      case Some(next) => Run(lines[1..], next)
  }

  const START := State(Table(map[]), [], {}, {}, {})

  function Interpret(lines: seq<Parsed>): Option<Value> {
    match Run(lines, START)
    case None => None
    case Some(st) => Some(st.root)
  }

  lemma {:induction false} RunConcat(a: seq<Parsed>, b: seq<Parsed>, st: State)
    ensures Run(a + b, st) == match Run(a, st) case None => None case Some(next) => Run(b, next)
  {
    hide Step;
    if a == [] {
      assert a + b == b;
    } else {
      assert (a + b)[1..] == a[1..] + b;
      match Step(a[0], st)
      case None =>
      case Some(next) => RunConcat(a[1..], b, next);
    }
  }

  lemma RunOne(l: Parsed, st: State)
    ensures Run([l], st) == Step(l, st)
  {
    hide Step;
  }

  // ---------------------------------------------------------------- trees

  /** `v` with the table at an existing `path` replaced. */
  function Put(v: Value, path: Path, x: Value): Value
    requires At(v, path).Some?
    decreases |path|
  {
    if path == [] then x else Table(v.entries[path[0] := Put(v.entries[path[0]], path[1..], x)])
  }

  lemma {:induction false} PutThenAt(v: Value, path: Path, x: Value)
    requires At(v, path).Some?
    ensures At(Put(v, path, x), path) == Some(x)
    decreases |path|
  {
    if path != [] { PutThenAt(v.entries[path[0]], path[1..], x); }
  }

  lemma {:induction false} PutTwice(v: Value, path: Path, x: Value, y: Value)
    requires At(v, path).Some?
    ensures At(Put(v, path, x), path).Some? && Put(Put(v, path, x), path, y) == Put(v, path, y)
    decreases |path|
  {
    if path != [] {
      PutTwice(v.entries[path[0]], path[1..], x, y);
      assert Put(Put(v, path, x), path, y).entries == Put(v, path, y).entries;
    }
  }

  lemma {:induction false} PutSame(v: Value, path: Path)
    requires At(v, path).Some?
    ensures Put(v, path, At(v, path).value) == v
    decreases |path|
  {
    if path != [] {
      PutSame(v.entries[path[0]], path[1..]);
      assert Put(v, path, At(v, path).value).entries == v.entries;
    }
  }

  /** Replacing below a table is replacing the table with one key changed. */
  lemma {:induction false} PutBelow(v: Value, path: Path, m: map<string, Value>, k: string, x: Value)
    requires At(v, path) == Some(Table(m)) && k in m
    ensures At(v, path + [k]) == Some(m[k]) && Put(v, path + [k], x) == Put(v, path, Table(m[k := x]))
    decreases |path|
  {
    if path == [] {
      assert path + [k] == [k];
    } else {
      assert (path + [k])[1..] == path[1..] + [k];
      PutBelow(v.entries[path[0]], path[1..], m, k, x);
    }
  }

  lemma {:induction false} DefineNew(v: Value, path: Path, m: map<string, Value>, k: string)
    requires At(v, path) == Some(Table(m)) && k !in m
    ensures Define(v, path + [k]) == Some(Put(v, path, Table(m[k := Table(map[])])))
    decreases |path|
  {
    if path == [] {
      assert path + [k] == [k];
      assert Define(Table(map[]), []) == Some(Table(map[]));
    } else {
      assert (path + [k])[1..] == path[1..] + [k];
      DefineNew(v.entries[path[0]], path[1..], m, k);
    }
  }

  /** Entering a table that is there changes nothing. */
  lemma {:induction false} DefineThere(v: Value, path: Path, m: map<string, Value>)
    requires At(v, path) == Some(Table(m))
    ensures Define(v, path) == Some(v)
    decreases |path|
  {
    if path != [] {
      DefineThere(v.entries[path[0]], path[1..], m);
      assert v.entries[path[0] := v.entries[path[0]]] == v.entries;
    }
  }

  lemma {:induction false} InsertNew(v: Value, path: Path, m: map<string, Value>, k: string, x: Value)
    requires At(v, path) == Some(Table(m)) && k !in m
    ensures Insert(v, path, k, x) == Some(Put(v, path, Table(m[k := x])))
    decreases |path|
  {
    if path != [] { InsertNew(v.entries[path[0]], path[1..], m, k, x); }
  }

  /** A plain new key in the current table. */
  lemma StepPlainKey(k: string, x: Value, st: State, m: map<string, Value>)
    requires At(st.root, st.current) == Some(Table(m)) && k !in m && !Inside(st.current, st.closed)
    ensures Step(PKeyValue([k], x), st)
            == Some(st.(root := Put(st.root, st.current, Table(m[k := x])),
                        closed := st.closed + if x.Table? then {st.current + [k]} else {}))
  {
    DefineThere(st.root, st.current, m);
    InsertNew(st.root, st.current, m, k, x);
    hide At;
    hide Put;
    hide Insert;
    hide Define;
    hide Inside;
    assert [k][..0] == [] && st.current + [] == st.current;
    assert Passed(st.current, [k]) == {};
    assert st.dotted + {} == st.dotted;
  }

  /** A header for a new table below an existing one, while nothing is closed or made by dotted keys. */
  lemma StepNewHeader(path: Path, k: string, st: State, m: map<string, Value>)
    requires At(st.root, path) == Some(Table(m)) && k !in m
    requires st.closed == {} && st.dotted == {} && path + [k] !in st.defined
    ensures Step(PHeader(path + [k]), st)
            == Some(State(Put(st.root, path, Table(m[k := Table(map[])])), path + [k],
                          st.defined + {path + [k]}, {}, {}))
  {
    hide Put;
    hide At;
    hide Define;
    DefineNew(st.root, path, m, k);
  }
}
