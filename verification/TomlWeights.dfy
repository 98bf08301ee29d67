/** Text weights what it writes: reading never yields more than the text it consumed was worth, and a key
    that is not bare is worth more once read than when it was printed raw. */
module TomlWeights {
  import opened Wrappers
  import opened ConfigOverlay
  import opened Scanning
  import opened TomlReader
  import opened TomlRules
  import opened TomlText
  import Decimals
  import QuotedText

  // ---------------------------------------------------------------- weights of text

  /** Blanks, structure and the escape character count for nothing. */
  predicate Weightless(c: char) {
    c == ' ' || c == '\\' || c == '=' || c == ',' || c == '.' || c == '[' || c == ']' || c == '{' || c == '}'
  }

  /** What a character weighs, which is what its escape sequence weighs. */
  function CharWeight(c: char): nat {
    if Weightless(c) then 0
    else if 0x20 <= c as int <= 0x7E || c in "\n\r\t" || c as int == 0x0C || c as int == 0x08 then 1
    else if QuotedText.InBasicPlane(c) then 5
    else 10
  }

  function Weight(s: string): nat {
    if s == "" then 0 else CharWeight(s[0]) + Weight(s[1..])
  }

  lemma {:induction false} WeightConcat(a: string, b: string)
    ensures Weight(a + b) == Weight(a) + Weight(b)
  {
    hide CharWeight;
    if a == "" {
      assert a + b == b;
    } else {
      assert (a + b)[1..] == a[1..] + b;
      WeightConcat(a[1..], b);
    }
  }

  lemma WeightSplit(s: string, n: nat)
    requires n <= |s|
    ensures Weight(s) == Weight(s[..n]) + Weight(s[n..])
  {
    assert s == s[..n] + s[n..];
    WeightConcat(s[..n], s[n..]);
  }

  lemma WeightOfOne(c: char)
    ensures Weight([c]) == CharWeight(c)
  {
    hide CharWeight;
    assert [c][1..] == "";
  }

  lemma HexWeighsOne(c: char)
    requires QuotedText.HexDigit(c).Some?
    ensures CharWeight(c) == 1
  {
  }

  lemma FourWeights(a: char, b: char, c: char, d: char)
    ensures Weight([a, b, c, d]) == CharWeight(a) + CharWeight(b) + CharWeight(c) + CharWeight(d)
  {
    hide CharWeight;
    var s := [a, b, c, d];
    assert s == [a] + ([b] + ([c] + [d]));
    WeightConcat([a], [b] + ([c] + [d]));
    WeightConcat([b], [c] + [d]);
    WeightConcat([c], [d]);
    WeightOfOne(a);
    WeightOfOne(b);
    WeightOfOne(c);
    WeightOfOne(d);
  }

  lemma UnicodeEscapeWeight(n: nat)
    requires n < 0x10000
    ensures Weight(QuotedText.UnicodeEscape(n)) == 5
  {
    var h := QuotedText.Hex4(n);
    QuotedText.HexDigitReadsBack(n / 0x1000);
    QuotedText.HexDigitReadsBack(n / 0x100 % 0x10);
    QuotedText.HexDigitReadsBack(n / 0x10 % 0x10);
    QuotedText.HexDigitReadsBack(n % 0x10);
    forall i | 0 <= i < 4 ensures CharWeight(h[i]) == 1 { HexWeighsOne(h[i]); }
    FourWeights(h[0], h[1], h[2], h[3]);
    assert h == [h[0], h[1], h[2], h[3]];
    WeightConcat([QuotedText.BACKSLASH, 'u'], h);
    TwoWeights(QuotedText.BACKSLASH, 'u');
  }

  lemma TwoWeights(a: char, b: char)
    ensures Weight([a, b]) == CharWeight(a) + CharWeight(b)
  {
    hide CharWeight;
    assert [a, b] == [a] + [b];
    WeightConcat([a], [b]);
    WeightOfOne(a);
    WeightOfOne(b);
  }

  lemma EscapeCharWeight(c: char)
    ensures Weight(QuotedText.EscapeChar(c)) == CharWeight(c)
  {
    hide Weight;
    hide QuotedText.UnicodeEscape;
    hide QuotedText.HighSurrogate;
    hide QuotedText.LowSurrogate;
    WeightOfOne(c);
    forall d ensures Weight([QuotedText.BACKSLASH, d]) == CharWeight(QuotedText.BACKSLASH) + CharWeight(d) {
      TwoWeights(QuotedText.BACKSLASH, d);
    }
    if QuotedText.InBasicPlane(c) {
      UnicodeEscapeWeight(c as int);
    } else {
      var hi, lo := QuotedText.HighSurrogate(c), QuotedText.LowSurrogate(c);
      UnicodeEscapeWeight(hi);
      UnicodeEscapeWeight(lo);
      WeightConcat(QuotedText.UnicodeEscape(hi), QuotedText.UnicodeEscape(lo));
    }
  }

  /** Escaping changes no weight. */
  lemma {:induction false} EscapeWeight(s: string)
    ensures Weight(QuotedText.Escape(s)) == Weight(s)
  {
    hide CharWeight;
    hide QuotedText.EscapeChar;
    if s != "" {
      EscapeCharWeight(s[0]);
      EscapeWeight(s[1..]);
      WeightConcat(QuotedText.EscapeChar(s[0]), QuotedText.Escape(s[1..]));
    }
  }

  // ---------------------------------------------------------------- reading strings and keys

  lemma {:induction false} SkipBlanksWeight(s: string)
    ensures Weight(SkipBlanks(s)) <= Weight(s)
  {
    if s != "" && IsBlank(s[0]) { SkipBlanksWeight(s[1..]); }
  }

  lemma HexTextWeight(s: string)
    requires |s| >= 4 && QuotedText.ReadHex4(s).Some?
    ensures Weight(s[..4]) == 4
  {
    hide Weight;
    HexWeighsOne(s[0]);
    HexWeighsOne(s[1]);
    HexWeighsOne(s[2]);
    HexWeighsOne(s[3]);
    assert s[..4] == [s[0], s[1], s[2], s[3]];
    FourWeights(s[0], s[1], s[2], s[3]);
  }

  lemma ReadCharWeight(s: string)
    ensures var r := QuotedText.ReadChar(s, false);
            r.Some? ==> CharWeight(r.value.0) + Weight(r.value.1) <= Weight(s)
  {
    hide Weight;
    hide QuotedText.ReadHex4;
    var r := QuotedText.ReadChar(s, false);
    if r.Some? {
      if s[0] != QuotedText.BACKSLASH {
        WeightSplit(s, 1);
        WeightOfOne(s[0]);
        assert s[..1] == [s[0]];
      } else if s[1] != 'u' {
        WeightSplit(s, 2);
        TwoWeights(s[0], s[1]);
        assert s[..2] == [s[0], s[1]];
      } else {
        WeightSplit(s, 2);
        TwoWeights(s[0], s[1]);
        assert s[..2] == [s[0], s[1]];
        WeightSplit(s[2..], 4);
        HexTextWeight(s[2..]);
        assert s[2..][4..] == s[6..];
        assert CharWeight(r.value.0) <= 5;
      }
    }
  }

  /** A quoted body weighs what it says, and its closing quote. */
  lemma {:induction false} ReadBodyWeight(s: string)
    ensures var r := QuotedText.ReadBody(s, false);
            r.Some? ==> Weight(r.value.0) + 1 + Weight(r.value.1) <= Weight(s)
    decreases |s|
  {
    hide CharWeight;
    hide QuotedText.ReadChar;
    if s != "" {
      assert CharWeight(QuotedText.QUOTE) == 1 by { QuoteWeighsOne(); }
      if s[0] != QuotedText.QUOTE {
        ReadCharWeight(s);
        var c := QuotedText.ReadChar(s, false);
        if c.Some? {
          ReadBodyWeight(c.value.1);
          var tail := QuotedText.ReadBody(c.value.1, false);
          if tail.Some? {
            WeightConcat([c.value.0], tail.value.0);
            WeightOfOne(c.value.0);
          }
        }
      }
    }
  }

  lemma QuoteWeighsOne()
    ensures CharWeight(QuotedText.QUOTE) == 1 && CharWeight(APOSTROPHE) == 1
  {
  }

  lemma ReadLiteralWeight(s: string)
    ensures var r := ReadLiteral(s); r.Some? ==> Weight(r.value.0) + 1 + Weight(r.value.1) <= Weight(s)
  {
    hide Weight;
    var n := RunLength(IsLiteralChar, s);
    WeightSplit(s, n);
    if n < |s| {
      WeightSplit(s[n..], 1);
      WeightOfOne(s[n]);
      assert s[n..][..1] == [s[n]] && s[n..][1..] == s[n + 1..];
    }
  }

  /** A key that is not bare is worth its two quotes more than its characters. */
  function KeyPrice(k: string): nat {
    Weight(k) + if IsBareKey(k) then 0 else 2
  }

  function PathPrice(p: Path): nat {
    if p == [] then 0 else KeyPrice(p[0]) + PathPrice(p[1..])
  }

  lemma {:induction false} PathPriceConcat(p: Path, q: Path)
    ensures PathPrice(p + q) == PathPrice(p) + PathPrice(q)
  {
    hide KeyPrice;
    if p == [] {
      assert p + q == q;
    } else {
      assert (p + q)[1..] == p[1..] + q;
      PathPriceConcat(p[1..], q);
    }
  }

  lemma PathPriceOne(k: string)
    ensures PathPrice([k]) == KeyPrice(k)
  {
    hide KeyPrice;
    assert [k][1..] == [];
  }

  lemma ReadKeyPrice(s: string)
    ensures var r := ReadKey(s); r.Some? ==> KeyPrice(r.value.0) + Weight(r.value.1) <= Weight(s)
  {
    hide Weight;
    hide QuotedText.ReadBody;
    hide ReadLiteral;
    if s != "" {
      var n := RunLength(IsBareChar, s);
      WeightSplit(s, n);
      WeightSplit(s, 1);
      WeightOfOne(s[0]);
      assert s[..1] == [s[0]];
      ReadBodyWeight(s[1..]);
      ReadLiteralWeight(s[1..]);
      QuoteWeighsOne();
      hide CharWeight;
    }
  }

  lemma {:induction false} ReadKeysPrice(s: string)
    ensures var r := ReadKeys(s); r.Some? ==> PathPrice(r.value.0) + Weight(r.value.1) <= Weight(s)
    decreases |s|
  {
    hide Weight;
    hide KeyPrice;
    hide ReadKey;
    hide SkipBlanks;
    SkipBlanksWeight(s);
    var t := SkipBlanks(s);
    ReadKeyPrice(t);
    var k := ReadKey(t);
    if k.Some? {
      PathPriceOne(k.value.0);
      var u := SkipBlanks(k.value.1);
      SkipBlanksWeight(k.value.1);
      if u != "" && u[0] == '.' {
        ReadKeysPrice(u[1..]);
        WeightSplit(u, 1);
        var more := ReadKeys(u[1..]);
        if more.Some? { PathPriceConcat([k.value.0], more.value.0); }
      }
    }
  }

  // ---------------------------------------------------------------- prices of values

  /** What a value costs to write down, with its keys at their price once read. */
  ghost function Price(v: Value): nat
    decreases v, 1
  {
    match v
    case Str(s) => 2 + Weight(s)
    case Bool(b) => if b then 4 else 5
    case Int(n) => Weight(Decimals.IntText(n))
    case Float(r) => Weight(r)
    case Array(items) => ItemsPrice(items)
    case Table(m) => SumPrice(v, m.Keys)
    case Opaque(_) => 0
  }

  ghost function ItemsPrice(vs: seq<Value>): nat
    decreases vs, 0
  {
    if vs == [] then 0 else Price(vs[0]) + ItemsPrice(vs[1..])
  }

  ghost function SumPrice(v: Value, keys: set<string>): nat
    requires v.Table? && keys <= v.entries.Keys
    decreases v, 0, keys
  {
    if keys == {} then 0
    else
      var k :| k in keys;
      KeyPrice(k) + Price(v.entries[k]) + SumPrice(v, keys - {k})
  }

  /** The sum does not depend on the order the keys are picked in. */
  lemma {:induction false} SumTake(v: Value, keys: set<string>, k: string)
    requires v.Table? && keys <= v.entries.Keys && k in keys
    ensures SumPrice(v, keys) == KeyPrice(k) + Price(v.entries[k]) + SumPrice(v, keys - {k})
    decreases keys
  {
    hide KeyPrice;
    hide Price;
    var p := SumFirst(v, keys);
    if p != k {
      SumTake(v, keys - {p}, k);
      SumTake(v, keys - {k}, p);
      assert keys - {p} - {k} == keys - {k} - {p};
    }
  }

  lemma SumFirst(v: Value, keys: set<string>) returns (p: string)
    requires v.Table? && keys <= v.entries.Keys && keys != {}
    ensures p in keys && SumPrice(v, keys) == KeyPrice(p) + Price(v.entries[p]) + SumPrice(v, keys - {p})
  {
    hide KeyPrice;
    hide Price;
    p :| p in keys && SumPrice(v, keys) == KeyPrice(p) + Price(v.entries[p]) + SumPrice(v, keys - {p});
  }

  lemma {:induction false} SumSame(v: Value, w: Value, keys: set<string>)
    requires v.Table? && w.Table? && keys <= v.entries.Keys && keys <= w.entries.Keys
    requires forall k | k in keys :: v.entries[k] == w.entries[k]
    ensures SumPrice(v, keys) == SumPrice(w, keys)
    decreases keys
  {
    hide KeyPrice;
    hide Price;
    if keys == {} {
      SumNone(v);
      SumNone(w);
    } else {
      var k :| k in keys;
      SumTake(v, keys, k);
      SumTake(w, keys, k);
      SumSame(v, w, keys - {k});
    }
  }

  lemma SumNone(v: Value)
    requires v.Table?
    ensures SumPrice(v, {}) == 0
  {
  }

  lemma TablePriceIs(m: map<string, Value>)
    ensures Price(Table(m)) == SumPrice(Table(m), m.Keys)
  {
  }

  lemma EmptyTablePrice()
    ensures Price(Table(map[])) == 0
  {
    TablePriceIs(map[]);
    SumNone(Table(map[]));
  }

  lemma TableInsert(m: map<string, Value>, k: string, x: Value)
    requires k !in m
    ensures Price(Table(m[k := x])) == Price(Table(m)) + KeyPrice(k) + Price(x)
  {
    hide *;
    var n := m[k := x];
    TablePriceIs(m);
    TablePriceIs(n);
    SumTake(Table(n), n.Keys, k);
    assert n.Keys - {k} == m.Keys;
    SumSame(Table(n), Table(m), m.Keys);
  }

  lemma TableReplace(m: map<string, Value>, k: string, x: Value)
    requires k in m
    ensures Price(Table(m[k := x])) + Price(m[k]) == Price(Table(m)) + Price(x)
  {
    hide *;
    var n := m[k := x];
    TablePriceIs(m);
    TablePriceIs(n);
    assert n.Keys == m.Keys;
    SumTake(Table(n), n.Keys, k);
    SumTake(Table(m), m.Keys, k);
    SumSame(Table(n), Table(m), m.Keys - {k});
  }

  // ---------------------------------------------------------------- prices under the document rules

  predicate TableAt(v: Value, path: Path) {
    At(v, path).Some? && At(v, path).value.Table?
  }

  /** Entering tables costs at most the keys beyond those already there. */
  lemma {:induction false} DefinePrice(v: Value, there: Path, beyond: Path)
    requires TableAt(v, there) && Define(v, there + beyond).Some?
    ensures Price(Define(v, there + beyond).value) <= Price(v) + PathPrice(beyond)
    ensures TableAt(Define(v, there + beyond).value, there + beyond)
    decreases |there| + |beyond|
  {
    hide KeyPrice;
    hide Price;
    var path := there + beyond;
    if there != [] {
      var k := there[0];
      assert path[0] == k && path[1..] == there[1..] + beyond;
      DefinePrice(v.entries[k], there[1..], beyond);
      TableReplace(v.entries, k, Define(v.entries[k], path[1..]).value);
    } else if beyond != [] {
      var k, rest := beyond[0], beyond[1..];
      assert path == beyond && rest == [] + rest;
      if k in v.entries {
        DefinePrice(v.entries[k], [], rest);
        TableReplace(v.entries, k, Define(v.entries[k], rest).value);
      } else {
        EmptyTablePrice();
        DefinePrice(Table(map[]), [], rest);
        TableInsert(v.entries, k, Define(Table(map[]), rest).value);
      }
    } else {
      assert path == [];
    }
  }

  lemma {:induction false} DefineKeepsTables(v: Value, path: Path, q: Path)
    requires TableAt(v, q) && Define(v, path).Some?
    ensures TableAt(Define(v, path).value, q)
    decreases |path|
  {
    if path != [] && q != [] && q[0] == path[0] {
      DefineKeepsTables(v.entries[q[0]], path[1..], q[1..]);
    }
  }

  lemma {:induction false} InsertPrice(v: Value, path: Path, key: string, x: Value)
    requires Insert(v, path, key, x).Some?
    ensures Price(Insert(v, path, key, x).value) == Price(v) + KeyPrice(key) + Price(x)
    decreases |path|
  {
    hide KeyPrice;
    hide Price;
    if path == [] {
      TableInsert(v.entries, key, x);
    } else {
      InsertPrice(v.entries[path[0]], path[1..], key, x);
      TableReplace(v.entries, path[0], Insert(v.entries[path[0]], path[1..], key, x).value);
    }
  }

  lemma {:induction false} InsertKeepsTables(v: Value, path: Path, key: string, x: Value, q: Path)
    requires TableAt(v, q) && Insert(v, path, key, x).Some?
    ensures TableAt(Insert(v, path, key, x).value, q)
    decreases |path|
  {
    if path != [] && q != [] && q[0] == path[0] {
      InsertKeepsTables(v.entries[q[0]], path[1..], key, x, q[1..]);
    }
  }


  ghost function ParsedPrice(l: Parsed): nat {
    match l
    case PBlank => 0
    case PHeader(p) => PathPrice(p)
    case PKeyValue(p, v) => PathPrice(p) + Price(v)
  }

  ghost function ParsedPrices(ps: seq<Parsed>): nat {
    if ps == [] then 0 else ParsedPrice(ps[0]) + ParsedPrices(ps[1..])
  }

  /** Tables and headers are there to stay, and the current table exists. */
  ghost predicate Grows(st: State, next: State) {
    TableAt(next.root, next.current) && st.defined <= next.defined
    && forall q | TableAt(st.root, q) :: TableAt(next.root, q)
  }

  lemma GrowsOn(a: State, b: State, c: State)
    requires Grows(a, b) && Grows(b, c)
    ensures Grows(a, c)
  {
  }

  lemma StepHeaderPrice(there: Path, beyond: Path, st: State)
    requires TableAt(st.root, there) && Step(PHeader(there + beyond), st).Some?
    ensures var next := Step(PHeader(there + beyond), st).value;
            && Price(next.root) <= Price(st.root) + PathPrice(beyond) && Grows(st, next)
            && there + beyond in next.defined && TableAt(next.root, there + beyond)
  {
    hide TableAt;
    hide Define;
    hide Price;
    hide PathPrice;
    DefinePrice(st.root, there, beyond);
    forall q | TableAt(st.root, q) ensures TableAt(Define(st.root, there + beyond).value, q) {
      DefineKeepsTables(st.root, there + beyond, q);
    }
  }

  lemma StepKeyValuePrice(p: Path, v: Value, st: State)
    requires TableAt(st.root, st.current) && Step(PKeyValue(p, v), st).Some?
    ensures var next := Step(PKeyValue(p, v), st).value;
            Price(next.root) <= Price(st.root) + PathPrice(p) + Price(v) && Grows(st, next)
  {
    hide TableAt;
    hide Define;
    hide Insert;
    hide Price;
    hide PathPrice;
    hide KeyPrice;
    var front, key := p[..|p| - 1], p[|p| - 1];
    var made := Define(st.root, st.current + front).value;
    DefinePrice(st.root, st.current, front);
    InsertPrice(made, st.current + front, key, v);
    assert p == front + [key];
    PathPriceConcat(front, [key]);
    PathPriceOne(key);
    var next := Step(PKeyValue(p, v), st).value;
    forall q | TableAt(st.root, q) ensures TableAt(next.root, q) {
      DefineKeepsTables(st.root, st.current + front, q);
      InsertKeepsTables(made, st.current + front, key, v, q);
    }
  }

  lemma StepPrice(l: Parsed, st: State)
    requires TableAt(st.root, st.current) && Step(l, st).Some?
    ensures var next := Step(l, st).value;
            Price(next.root) <= Price(st.root) + ParsedPrice(l) && Grows(st, next)
  {
    hide TableAt;
    hide StepKeyValue;
    hide StepHeader;
    hide Price;
    hide PathPrice;
    match l
    case PBlank =>
    case PHeader(p) =>
      assert [] + p == p;
      RootIsTable(st.root, st.current);
      StepHeaderPrice([], p, st);
    case PKeyValue(p, v) => StepKeyValuePrice(p, v, st);
  }

  lemma RootIsTable(v: Value, path: Path)
    requires TableAt(v, path)
    ensures TableAt(v, [])
  {
  }

  lemma {:induction false} RunPrice(ps: seq<Parsed>, st: State)
    requires TableAt(st.root, st.current) && Run(ps, st).Some?
    ensures Price(Run(ps, st).value.root) <= Price(st.root) + ParsedPrices(ps)
  {
    if ps != [] {
      hide TableAt;
      hide Step;
      hide Price;
      hide ParsedPrice;
      StepPrice(ps[0], st);
      RunPrice(ps[1..], Step(ps[0], st).value);
    }
  }

  // ---------------------------------------------------------------- prices of what is read

  lemma AllWeighOne(t: string)
    requires forall i | 0 <= i < |t| :: CharWeight(t[i]) == 1
    ensures Weight(t) == |t|
  {
  }

  lemma ReadNumberPrice(s: string)
    ensures var r := ReadNumber(s); r.Some? ==> Price(r.value.0) + Weight(r.value.1) <= Weight(s)
  {
    hide *;
    ReadNumberIs(s);
    var t := s[..RunLength(IsNumberChar, s)];
    NumberMeantIs(t);
    WeightSplit(s, |t|);
    if Decimals.IsIntText(t) && Decimals.NoLeadingZero(t) {
      Decimals.IntTextOfValue(t);
      ScalarPrices(Decimals.IntValue(t), t);
      SignWeighs();
    } else {
      ScalarPrices(0, t);
    }
  }

  lemma ScalarPrices(n: int, t: string)
    ensures Price(Int(n)) == Weight(Decimals.IntText(n))
    ensures Price(Float(t)) == Weight(t) && Price(Str(t)) == 2 + Weight(t)
    ensures Price(Bool(true)) == 4 && Price(Bool(false)) == 5
  {
  }

  lemma SignWeighs()
    ensures Weight("-0") == 2 && Weight("0") == 1
  {
    TwoWeights('-', '0');
    WeightOfOne('0');
  }

  lemma WordWeights()
    ensures Weight("true") == 4 && Weight("false") == 5
  {
    AllWeighOne("true");
    AllWeighOne("false");
  }

  lemma ReadWordPrice(s: string, word: string, v: Value)
    requires word != "" && Price(v) == Weight(word)
    ensures var r := ReadWord(s, word, v); r.Some? ==> Price(r.value.0) + Weight(r.value.1) <= Weight(s)
  {
    hide Weight;
    hide Price;
    if word <= s {
      WeightSplit(s, |word|);
      assert s[..|word|] == word;
    }
  }

  lemma AsStringPrice(s: string, body: Option<(string, string)>)
    requires s != "" && CharWeight(s[0]) == 1
    requires body.Some? ==> Weight(body.value.0) + 1 + Weight(body.value.1) <= Weight(s[1..])
    ensures var r := AsString(body); r.Some? ==> Price(r.value.0) + Weight(r.value.1) <= Weight(s)
  {
    hide Weight;
    hide CharWeight;
    WeightSplit(s, 1);
    WeightOfOne(s[0]);
    assert s[..1] == [s[0]];
  }

  lemma TailWeight(s: string)
    ensures s != "" ==> Weight(s[1..]) <= Weight(s)
  {
    hide CharWeight;
  }

  /** No value costs more than the text it was read from weighed. */
  lemma {:induction false} ReadValuePrice(s: string)
    ensures var r := ReadValue(s); r.Some? ==> Price(r.value.0) + Weight(r.value.1) <= Weight(s)
    decreases |s|, 1
  {
    hide Weight;
    hide Price;
    hide ItemsPrice;
    hide ReadNumber;
    hide ReadItems;
    hide ReadInline;
    hide ReadLiteral;
    hide AsString;
    hide ReadWord;
    hide QuotedText.ReadBody;
    hide SkipBlanks;
    SkipBlanksWeight(s);
    var t := SkipBlanks(s);
    if t != "" {
      QuoteWeighsOne();
      hide CharWeight;
      TailWeight(t);
      WordWeights();
      ScalarPrices(0, "");
      ReadWordPrice(t, "true", Bool(true));
      ReadWordPrice(t, "false", Bool(false));
      ReadNumberPrice(t);
      if t[0] == QuotedText.QUOTE {
        ReadBodyWeight(t[1..]);
        AsStringPrice(t, QuotedText.ReadBody(t[1..], false));
      } else if t[0] == APOSTROPHE {
        ReadLiteralWeight(t[1..]);
        AsStringPrice(t, ReadLiteral(t[1..]));
      } else if t[0] == '[' {
        ReadItemsPrice(t[1..]);
        var items := ReadItems(t[1..]);
        if items.Some? { ArrayPriceIs(items.value.0); }
      } else if t[0] == '{' {
        ReadInlinePrice(t[1..]);
      }
    }
  }

  lemma ArrayPriceIs(vs: seq<Value>)
    ensures Price(Array(vs)) == ItemsPrice(vs)
  {
  }

  lemma ItemsPriceCons(v: Value, vs: seq<Value>)
    ensures ItemsPrice([]) == 0 && ItemsPrice([v]) == Price(v) && ItemsPrice([v] + vs) == Price(v) + ItemsPrice(vs)
  {
    hide Price;
    assert ([v] + vs)[1..] == vs && [v][1..] == [];
  }

  lemma {:induction false} ReadItemsPrice(s: string)
    ensures var r := ReadItems(s); r.Some? ==> ItemsPrice(r.value.0) + Weight(r.value.1) <= Weight(s)
    decreases |s|, 2
  {
    hide Weight;
    hide Price;
    hide ItemsPrice;
    hide ReadValue;
    hide SkipBlanks;
    SkipBlanksWeight(s);
    var t := SkipBlanks(s);
    ItemsPriceCons(Bool(true), []);
    if t != "" {
      TailWeight(t);
      ReadValuePrice(t);
      var v := ReadValue(t);
      if t[0] != ']' && v.Some? {
        var u := SkipBlanks(v.value.1);
        SkipBlanksWeight(v.value.1);
        if u != "" {
          TailWeight(u);
          ReadItemsPrice(u[1..]);
          ItemsPriceCons(v.value.0, []);
          var more := ReadItems(u[1..]);
          if more.Some? { ItemsPriceCons(v.value.0, more.value.0); }
        }
      }
    }
  }

  lemma {:induction false} ReadPairPrice(s: string)
    ensures var r := ReadPair(s); r.Some? ==> ParsedPrice(r.value.0) + Weight(r.value.1) <= Weight(s)
    decreases |s|, 2
  {
    hide Weight;
    hide Price;
    hide PathPrice;
    hide ReadValue;
    hide ReadKeys;
    ReadKeysPrice(s);
    var p := ReadKeys(s);
    if p.Some? && p.value.1 != "" {
      TailWeight(p.value.1);
      ReadValuePrice(p.value.1[1..]);
    }
  }

  lemma ParsedPricesCons(l: Parsed, ps: seq<Parsed>)
    ensures ParsedPrices([l]) == ParsedPrice(l) && ParsedPrices([l] + ps) == ParsedPrice(l) + ParsedPrices(ps)
  {
    hide ParsedPrice;
    assert ([l] + ps)[1..] == ps && [l][1..] == [];
  }

  lemma {:induction false} ReadPairsPrice(s: string)
    ensures var r := ReadPairs(s); r.Some? ==> ParsedPrices(r.value.0) + Weight(r.value.1) <= Weight(s)
    decreases |s|, 3
  {
    hide Weight;
    hide ParsedPrice;
    hide ParsedPrices;
    hide ReadPair;
    hide SkipBlanks;
    ReadPairPrice(s);
    var kv := ReadPair(s);
    if kv.Some? {
      ParsedPricesCons(kv.value.0, []);
      var u := SkipBlanks(kv.value.1);
      SkipBlanksWeight(kv.value.1);
      if u != "" {
        TailWeight(u);
        ReadPairsPrice(u[1..]);
        var more := ReadPairs(u[1..]);
        if more.Some? { ParsedPricesCons(kv.value.0, more.value.0); }
      }
    }
  }

  lemma {:induction false} ReadInlinePrice(s: string)
    ensures var r := ReadInline(s); r.Some? ==> Price(r.value.0) + Weight(r.value.1) <= Weight(s)
    decreases |s|, 4
  {
    hide *;
    InlineIs(s);
    SkipBlanksWeight(s);
    var t := SkipBlanks(s);
    TailWeight(t);
    EmptyTablePrice();
    ReadPairsPrice(t);
    var pairs := ReadPairs(t);
    if pairs.Some? { InterpretPrice(pairs.value.0); }
  }

  lemma InterpretPrice(ps: seq<Parsed>)
    ensures Interpret(ps).Some? ==> Price(Interpret(ps).value) <= ParsedPrices(ps)
  {
    hide Price;
    hide ParsedPrices;
    hide Run;
    EmptyTablePrice();
    if Run(ps, START).Some? { RunPrice(ps, START); }
  }
}
