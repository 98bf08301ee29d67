/** Configuration values as the printer sees them, tables in insertion order: what they mean, the conditions
    stated of them, and the text `_format_value` writes. */
module TomlText {
  import opened ConfigOverlay
  import opened Scanning
  import Decimals
  import QuotedText

  predicate IsNumberStart(c: char) {
    Decimals.IsDigit(c) || c == '-' || c == 'i' || c == 'n'
  }

  predicate IsNumberChar(c: char) {
    Decimals.IsDigit(c) || c in "+-.einfa"
  }

  /** `str` of a float: TOML reads the same text. */
  predicate IsFloatText(s: string) {
    IsRun(IsNumberStart, IsNumberChar, s) && !Decimals.IsIntText(s)
    && var t := if s[0] == '-' then s[1..] else s;
       t == "nan" || t == "inf" || (Decimals.IsFiniteFloat(t) && (t[0] == '0' ==> !Decimals.IsDigit(t[1])))
  }

  type FloatText = s: string | IsFloatText(s) witness "nan"

  datatype Doc =
    | DStr(s: string)
    | DBool(b: bool)
    | DInt(n: int)
    | DFloat(repr: FloatText)
    | DArray(items: seq<Doc>)
    | DTable(entries: seq<Entry>)
    | DOpaque(tag: string)

  datatype Entry = Entry(key: string, value: Doc)

  // ---------------------------------------------------------------- meaning

  function Meaning(d: Doc): Value
    decreases d, 1
  {
    match d
    case DStr(s) => Str(s)
    case DBool(b) => Bool(b)
    case DInt(n) => Int(n)
    case DFloat(r) => Float(r)
    case DArray(items) => Array(MeaningItems(items))
    case DTable(entries) => Table(MeaningEntries(entries))
    case DOpaque(tag) => Opaque(tag)
  }

  function MeaningItems(items: seq<Doc>): (vs: seq<Value>)
    decreases items, 0
  {
    if items == [] then [] else [Meaning(items[0])] + MeaningItems(items[1..])
  }

  function MeaningEntries(entries: seq<Entry>): map<string, Value>
    decreases entries, 0
  {
    if entries == [] then map[]
    else map[entries[0].key := MeaningEntry(entries[0])] + MeaningEntries(entries[1..])
  }

  function MeaningEntry(e: Entry): Value
    decreases e, 1
  {
    Meaning(e.value)
  }

  // ---------------------------------------------------------------- conditions on a document

  predicate IsBareChar(c: char) {
    'a' <= c <= 'z' || 'A' <= c <= 'Z' || Decimals.IsDigit(c) || c == '_' || c == '-'
  }

  predicate IsBareKey(k: string) {
    k != "" && forall i | 0 <= i < |k| :: IsBareChar(k[i])
  }

  predicate IsBasic(s: string) {
    forall i | 0 <= i < |s| :: QuotedText.InBasicPlane(s[i])
  }

  predicate KeysDistinct(entries: seq<Entry>) {
    forall i, j | 0 <= i < j < |entries| :: entries[i].key != entries[j].key
  }

  /** A condition on every string, every opaque value and every table at any depth. */
  datatype Condition = Printable | WellKeyed | BareKeys | BasicStrings

  predicate Holds(c: Condition, d: Doc)
    decreases d, 1
  {
    match d
    case DStr(s) => c == BasicStrings ==> IsBasic(s)
    case DArray(items) => HoldsAll(c, items)
    case DTable(entries) => HoldsEntries(c, entries)
    case DOpaque(_) => c != Printable
    case _ => true
  }

  predicate HoldsAll(c: Condition, items: seq<Doc>)
    decreases items, 0
  {
    items == [] || (Holds(c, items[0]) && HoldsAll(c, items[1..]))
  }

  predicate HoldsEntry(c: Condition, e: Entry)
    decreases e, 1
  {
    (c == BareKeys ==> IsBareKey(e.key)) && Holds(c, e.value)
  }

  predicate HoldsEntries(c: Condition, entries: seq<Entry>)
    decreases entries, 0
  {
    entries == []
    || (&& HoldsEntry(c, entries[0])
        && (c == WellKeyed ==> KeysDistinct(entries))
        && HoldsEntries(c, entries[1..]))
  }

  lemma UnfoldEntries(entries: seq<Entry>)
    requires entries != []
    ensures HoldsEntries(BasicStrings, entries)
            == (Holds(BasicStrings, entries[0].value) && HoldsEntries(BasicStrings, entries[1..]))
    ensures MeaningEntries(entries)
            == map[entries[0].key := Meaning(entries[0].value)] + MeaningEntries(entries[1..])
  {
    hide Holds;
    hide Meaning;
  }

  lemma {:induction false} MeaningKeys(entries: seq<Entry>)
    ensures forall k :: k in MeaningEntries(entries) <==> exists i | 0 <= i < |entries| :: entries[i].key == k
  {
    if entries != [] {
      MeaningKeys(entries[1..]);
      forall k ensures k in MeaningEntries(entries) <==> exists i | 0 <= i < |entries| :: entries[i].key == k {
        if k in MeaningEntries(entries[1..]) {
          var i :| 0 <= i < |entries[1..]| && entries[1..][i].key == k;
          assert entries[i + 1].key == k;
        }
        if i :| 0 <= i < |entries| && entries[i].key == k {
          assert i > 0 ==> entries[1..][i - 1].key == k;
        }
      }
    }
  }

  lemma FirstKeyFresh(entries: seq<Entry>)
    requires entries != [] && HoldsEntries(WellKeyed, entries)
    ensures entries[0].key !in MeaningEntries(entries[1..])
  {
    hide Holds;
    hide Meaning;
    hide MeaningEntries;
    MeaningKeys(entries[1..]);
    assert KeysDistinct(entries);
  }

  // ---------------------------------------------------------------- printing

  /** `_format_value` on values it does not refuse. */
  function Format(d: Doc): string
    requires Holds(Printable, d)
    decreases d, 1
  {
    match d
    case DStr(s) => QuotedText.Quote(s)
    case DBool(b) => if b then "true" else "false"
    case DInt(n) => Decimals.IntText(n)
    case DFloat(r) => r
    case DTable(entries) => "{ " + FormatPairs(entries) + " }"
    case DArray(items) => "[" + FormatItems(items) + "]"
  }

  function FormatItems(items: seq<Doc>): string
    requires HoldsAll(Printable, items)
    decreases items, 0
  {
    if items == [] then ""
    else if |items| == 1 then Format(items[0])
    else Format(items[0]) + ", " + FormatItems(items[1..])
  }

  function FormatPair(e: Entry): string
    requires HoldsEntry(Printable, e)
    decreases e, 1
  {
    e.key + " = " + Format(e.value)
  }

  function FormatPairs(entries: seq<Entry>): string
    requires HoldsEntries(Printable, entries)
    decreases entries, 0
  {
    if entries == [] then ""
    else if |entries| == 1 then FormatPair(entries[0])
    else FormatPair(entries[0]) + ", " + FormatPairs(entries[1..])
  }
}
