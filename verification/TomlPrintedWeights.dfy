/** What printed values weigh against what they mean: a value costs at least its printed text, and more if a
    key in it is not bare. */
module TomlPrintedWeights {
  import opened ConfigOverlay
  import opened Scanning
  import opened TomlReader
  import opened TomlText
  import opened TomlWeights
  import opened Wrappers
  import QuotedText

  // ---------------------------------------------------------------- what printed values weigh

  function EntryWeight(e: Entry): nat
    requires HoldsEntry(Printable, e)
  {
    Weight(e.key) + Weight(Format(e.value))
  }

  function EntriesWeight(entries: seq<Entry>): nat
    requires HoldsEntries(Printable, entries)
  {
    if entries == [] then 0 else EntryWeight(entries[0]) + EntriesWeight(entries[1..])
  }

  function ItemsWeight(items: seq<Doc>): nat
    requires HoldsAll(Printable, items)
  {
    if items == [] then 0 else Weight(Format(items[0])) + ItemsWeight(items[1..])
  }

  lemma StructureWeighsNothing()
    ensures Weight(", ") == 0 && Weight(" = ") == 0 && Weight("{ ") == 0 && Weight(" }") == 0
    ensures Weight("[") == 0 && Weight("]") == 0 && Weight(".") == 0 && Weight("") == 0
  {
    assert ", " == [','] + [' '] && "{ " == ['{'] + [' '] && " }" == [' '] + ['}'];
    assert " = " == [' '] + (['='] + [' ']);
    WeightConcat([','], [' ']);
    WeightConcat(['{'], [' ']);
    WeightConcat([' '], ['}']);
    WeightConcat(['='], [' ']);
    WeightConcat([' '], ['='] + [' ']);
    forall c | Weightless(c) ensures Weight([c]) == 0 { WeightOfOne(c); }
  }

  lemma {:induction false} FormatItemsWeight(items: seq<Doc>)
    requires HoldsAll(Printable, items)
    ensures Weight(FormatItems(items)) == ItemsWeight(items)
  {
    hide Weight;
    hide Format;
    hide Holds;
    StructureWeighsNothing();
    if |items| == 1 {
      assert items[1..] == [];
    } else if items != [] {
      FormatItemsWeight(items[1..]);
      WeightConcat(Format(items[0]) + ", ", FormatItems(items[1..]));
      WeightConcat(Format(items[0]), ", ");
    }
  }

  lemma FormatPairWeight(e: Entry)
    requires HoldsEntry(Printable, e)
    ensures Weight(FormatPair(e)) == EntryWeight(e)
  {
    hide Weight;
    hide Format;
    hide Holds;
    StructureWeighsNothing();
    WeightConcat(e.key + " = ", Format(e.value));
    WeightConcat(e.key, " = ");
  }

  lemma {:induction false} FormatPairsWeight(entries: seq<Entry>)
    requires HoldsEntries(Printable, entries)
    ensures Weight(FormatPairs(entries)) == EntriesWeight(entries)
  {
    hide Weight;
    hide FormatPair;
    hide HoldsEntry;
    hide EntryWeight;
    hide KeysDistinct;
    StructureWeighsNothing();
    if entries != [] {
      FormatPairWeight(entries[0]);
      if |entries| == 1 {
        assert entries[1..] == [];
      } else {
        FormatPairsWeight(entries[1..]);
        WeightConcat(FormatPair(entries[0]) + ", ", FormatPairs(entries[1..]));
        WeightConcat(FormatPair(entries[0]), ", ");
      }
    }
  }

  /** A table's inline text weighs what its entries weigh. */
  lemma TableWeight(entries: seq<Entry>)
    requires HoldsEntries(Printable, entries)
    ensures Holds(Printable, DTable(entries)) && Weight(Format(DTable(entries))) == EntriesWeight(entries)
  {
    hide Weight;
    hide HoldsEntries;
    StructureWeighsNothing();
    FormatPairsWeight(entries);
    hide FormatPairs;
    hide EntriesWeight;
    WeightConcat("{ " + FormatPairs(entries), " }");
    WeightConcat("{ ", FormatPairs(entries));
  }

  /** Two for a key that is not bare. */
  function Penalty(bare: bool): nat {
    if bare then 0 else 2
  }

  lemma PenaltyIs()
    ensures Penalty(true) == 0 && Penalty(false) == 2
  {
  }

  /** What a printed value means costs at least what its text weighs, and more if some key is not bare. */
  lemma {:induction false} MeaningCosts(d: Doc)
    requires Holds(Printable, d) && Holds(WellKeyed, d)
    ensures Price(Meaning(d)) >= Weight(Format(d)) + Penalty(Holds(BareKeys, d))
    decreases d, 1
  {
    hide Weight;
    hide EntriesWeight;
    hide ItemsWeight;
    hide ItemsPrice;
    hide SumPrice;
    hide MeaningItems;
    hide MeaningEntries;
    hide FormatPairs;
    hide FormatItems;
    hide HoldsAll;
    hide HoldsEntries;
    match d
    case DStr(s) => QuoteWeight(s);
    case DBool(b) => WordWeights();
    case DInt(n) => ScalarPrices(n, "");
    case DFloat(r) => ScalarPrices(0, r);
    case DArray(items) =>
      StructureWeighsNothing();
      FormatItemsWeight(items);
      WeightConcat("[" + FormatItems(items), "]");
      WeightConcat("[", FormatItems(items));
      ArrayPriceIs(MeaningItems(items));
      ItemsCost(items);
    case DTable(entries) =>
      TableWeight(entries);
      EntriesCost(entries);
  }

  lemma QuoteWeight(s: string)
    ensures Weight(QuotedText.Quote(s)) == 2 + Weight(s)
  {
    hide Weight;
    hide QuotedText.Escape;
    EscapeWeight(s);
    QuoteWeighsOne();
    var q := [QuotedText.QUOTE];
    WeightOfOne(QuotedText.QUOTE);
    WeightConcat(q + QuotedText.Escape(s), q);
    WeightConcat(q, QuotedText.Escape(s));
  }

  lemma {:induction false} ItemsCost(items: seq<Doc>)
    requires HoldsAll(Printable, items) && HoldsAll(WellKeyed, items)
    ensures ItemsPrice(MeaningItems(items)) >= ItemsWeight(items) + Penalty(HoldsAll(BareKeys, items))
    decreases items, 0
  {
    hide Weight;
    hide Price;
    hide Meaning;
    hide Format;
    hide Holds;
    if items != [] {
      MeaningCosts(items[0]);
      ItemsCost(items[1..]);
      ItemsPriceCons(Meaning(items[0]), MeaningItems(items[1..]));
    }
  }

  lemma {:induction false} EntriesCost(entries: seq<Entry>)
    requires HoldsEntries(Printable, entries) && HoldsEntries(WellKeyed, entries)
    ensures Price(Table(MeaningEntries(entries))) >= EntriesWeight(entries) + Penalty(HoldsEntries(BareKeys, entries))
    decreases entries, 0
  {
    hide *;
    EntriesConditions(entries);
    if entries == [] {
      EmptyTablePrice();
      PenaltyIs();
    } else {
      var e, more := entries[0], entries[1..];
      EntryCosts(e);
      EntriesCost(more);
      UnfoldEntries(entries);
      FirstKeyFresh(entries);
      var m := MeaningEntries(more);
      assert map[e.key := Meaning(e.value)] + m == m[e.key := Meaning(e.value)];
      TableInsert(m, e.key, Meaning(e.value));
      PenaltyIs();
    }
  }

  lemma EntriesConditions(entries: seq<Entry>)
    requires HoldsEntries(Printable, entries) && HoldsEntries(WellKeyed, entries)
    ensures entries == [] ==>
              EntriesWeight(entries) == 0 && HoldsEntries(BareKeys, entries) && MeaningEntries(entries) == map[]
    ensures entries != [] ==>
              && HoldsEntry(Printable, entries[0]) && HoldsEntry(WellKeyed, entries[0])
              && HoldsEntries(Printable, entries[1..]) && HoldsEntries(WellKeyed, entries[1..])
              && EntriesWeight(entries) == EntryWeight(entries[0]) + EntriesWeight(entries[1..])
              && HoldsEntries(BareKeys, entries)
                 == (HoldsEntry(BareKeys, entries[0]) && HoldsEntries(BareKeys, entries[1..]))
  {
    hide HoldsEntry;
    hide EntryWeight;
    hide KeysDistinct;
  }

  lemma {:induction false} EntryCosts(e: Entry)
    requires HoldsEntry(Printable, e) && HoldsEntry(WellKeyed, e)
    ensures KeyPrice(e.key) + Price(Meaning(e.value)) >= EntryWeight(e) + Penalty(HoldsEntry(BareKeys, e))
    decreases e, 1
  {
    hide Weight;
    hide Price;
    hide Meaning;
    hide Format;
    hide Holds;
    hide IsBareKey;
    MeaningCosts(e.value);
  }

  /** A value alone reads back exactly when its keys are bare and its strings basic. */
  lemma ValueReadsBackIff(d: Doc, rest: string)
    requires Holds(Printable, d) && Holds(WellKeyed, d) && Ends(IsNumberChar, rest)
    ensures ReadValue(Format(d) + rest) == Some((Meaning(d), rest)) <==> Holds(BareKeys, d) && Holds(BasicStrings, d)
  {
    hide *;
    if Holds(BareKeys, d) {
      ValueReads(d, rest);
      ReadingIs(d, rest);
    } else {
      ReadValuePrice(Format(d) + rest);
      WeightConcat(Format(d), rest);
      MeaningCosts(d);
      PenaltyIs();
    }
  }
}
