/** Deep merge of a base configuration with an overlay: what a merged configuration holds at every
    path, and the algebra of merging. */
module ConfigOverlay {
  import opened Wrappers

  /** A parsed configuration value.  `repr` is a float's text; `Opaque` is a value the printer refuses
      (a date, a time, `None`). */
  datatype Value =
    | Str(s: string)
    | Bool(b: bool)
    | Int(n: int)
    | Float(repr: string)
    | Array(items: seq<Value>)
    | Table(entries: map<string, Value>)
    | Opaque(tag: string)

  /** `overlay` laid over `base`: tables merge key by key, anything else is replaced. */
  function Merge(base: Value, overlay: Value): Value
    decreases overlay
  {
    if base.Table? && overlay.Table? then
      Table(map k | k in base.entries.Keys + overlay.entries.Keys ::
              if k !in overlay.entries then base.entries[k]
              else if k !in base.entries then overlay.entries[k]
              else Merge(base.entries[k], overlay.entries[k]))
    else overlay
  }

  /** The loop over `overlay.items()`, in whatever order the keys come. */
  method MergeConfig(base: Value, overlay: Value) returns (merged: Value)
    requires base.Table? && overlay.Table?
    ensures merged == Merge(base, overlay)
    decreases overlay
  {
    var out := base.entries;
    var todo := overlay.entries.Keys;
    while todo != {}
      invariant todo <= overlay.entries.Keys
      invariant out.Keys == base.entries.Keys + (overlay.entries.Keys - todo)
      invariant forall k | k in out ::
                  out[k] == if k !in overlay.entries || k in todo then base.entries[k]
                            else if k !in base.entries then overlay.entries[k]
                            else Merge(base.entries[k], overlay.entries[k])
      decreases todo
    {
      var key :| key in todo;
      var value := overlay.entries[key];
      if key in out && out[key].Table? && value.Table? {
        var sub := MergeConfig(out[key], value);
        out := out[key := sub];
      } else {
        out := out[key := value];
      }
      todo := todo - {key};
    }
    merged := Table(out);
    assert merged.entries == Merge(base, overlay).entries;
  }

  // ---------------------------------------------------------------- lookups

  type Path = seq<string>

  function At(v: Value, path: Path): Option<Value>
    decreases |path|
  {
    if path == [] then Some(v)
    else if v.Table? && path[0] in v.entries then At(v.entries[path[0]], path[1..])
    else None
  }

  /** Somewhere strictly above `path`, `v` holds something that is not a table. */
  predicate CutAbove(v: Value, path: Path)
    decreases |path|
  {
    path != [] && (!v.Table? || (path[0] in v.entries && CutAbove(v.entries[path[0]], path[1..])))
  }

  /** What a merged configuration holds at every path: the overlay's value where it has one (merged
      with the base's if both are tables), nothing below a non-table of the overlay, and otherwise
      what the base holds. */
  lemma {:induction false} MergedLookup(base: Value, overlay: Value, path: Path)
    requires base.Table? && overlay.Table?
    ensures At(Merge(base, overlay), path)
            == if At(overlay, path).Some? then
                 Some(if At(base, path).Some? then Merge(At(base, path).value, At(overlay, path).value)
                      else At(overlay, path).value)
               else if CutAbove(overlay, path) then None
               else At(base, path)
    decreases |path|
  {
    if path != [] {
      var k, rest := path[0], path[1..];
      if k in base.entries && k in overlay.entries && base.entries[k].Table? && overlay.entries[k].Table? {
        MergedLookup(base.entries[k], overlay.entries[k], rest);
      } else if k in overlay.entries {
        assert At(Merge(base, overlay), path) == At(overlay.entries[k], rest);
        if !overlay.entries[k].Table? {
          assert rest != [] ==> CutAbove(overlay.entries[k], rest);
        } else {
          AbsentOrCut(overlay.entries[k], rest);
          assert k in base.entries ==> !base.entries[k].Table?;
          assert rest != [] ==> At(base, path).None?;
        }
      }
    }
  }

  lemma {:induction false} AbsentOrCut(v: Value, path: Path)
    ensures CutAbove(v, path) ==> At(v, path).None?
    decreases |path|
  {
    if path != [] && v.Table? && path[0] in v.entries {
      AbsentOrCut(v.entries[path[0]], path[1..]);
    }
  }

  // ---------------------------------------------------------------- algebra

  /** The empty table changes nothing on either side. */
  lemma EmptyIsIdentity(v: Value)
    requires v.Table?
    ensures Merge(v, Table(map[])) == v && Merge(Table(map[]), v) == v
  {
    assert Merge(v, Table(map[])).entries == v.entries;
    assert Merge(Table(map[]), v).entries == v.entries;
  }

  lemma MergedAt(base: map<string, Value>, overlay: map<string, Value>, k: string)
    ensures var m := Merge(Table(base), Table(overlay));
            && m.Table? && (k in m.entries <==> k in base || k in overlay)
            && (k in overlay ==>
                  m.entries[k] == if k in base then Merge(base[k], overlay[k]) else overlay[k])
            && (k in base && k !in overlay ==> m.entries[k] == base[k])
  {
  }

  lemma MergedOver(base: Value, overlay: Value)
    requires !base.Table? || !overlay.Table?
    ensures Merge(base, overlay) == overlay
  {
  }

  lemma OneEntryMerged(base: map<string, Value>, k: string, v: Value)
    ensures Merge(Table(base), Table(map[k := v]))
         == Table(base[k := if k in base && base[k].Table? && v.Table? then Merge(base[k], v) else v])
  {
    hide Merge;
    var m := Merge(Table(base), Table(map[k := v]));
    var w := if k in base && base[k].Table? && v.Table? then Merge(base[k], v) else v;
    MergedAt(base, map[k := v], k);
    if k in base && !(base[k].Table? && v.Table?) { MergedOver(base[k], v); }
    var n := base[k := w];
    forall x ensures (x in m.entries <==> x in n) && (x in n ==> m.entries[x] == n[x]) {
      MergedAt(base, map[k := v], x);
    }
  }

  lemma PartsMerged(base: map<string, Value>, m: map<string, Value>, n: map<string, Value>)
    requires m.Keys !! n.Keys
    ensures Merge(Table(base), Table(m + n)) == Merge(Merge(Table(base), Table(m)), Table(n))
  {
    hide Merge;
    var all, first := Merge(Table(base), Table(m + n)), Merge(Table(base), Table(m));
    MergedAt(base, m + n, "");
    MergedAt(base, m, "");
    var both := Merge(first, Table(n));
    MergedAt(first.entries, n, "");
    forall x
      ensures (x in all.entries <==> x in both.entries) && (x in all.entries ==> all.entries[x] == both.entries[x])
    {
      MergedAt(base, m + n, x);
      MergedAt(base, m, x);
      MergedAt(first.entries, n, x);
    }
  }

  /** Merging is laying one entry after the other, in any order: an entry replaces what stands under its key,
      unless both are tables, which merge. */
  lemma MergedKeyByKey(base: map<string, Value>, k: string, v: Value, m: map<string, Value>, n: map<string, Value>)
    ensures Merge(Table(base), Table(map[k := v]))
         == Table(base[k := if k in base && base[k].Table? && v.Table? then Merge(base[k], v) else v])
    ensures m.Keys !! n.Keys ==>
              Merge(Table(base), Table(m + n)) == Merge(Merge(Table(base), Table(m)), Table(n))
  {
    hide Merge;
    OneEntryMerged(base, k, v);
    if m.Keys !! n.Keys { PartsMerged(base, m, n); }
  }

  lemma {:induction false} MergeIdempotent(v: Value)
    ensures Merge(v, v) == v
    decreases v
  {
    if v.Table? {
      forall k | k in v.entries ensures Merge(v.entries[k], v.entries[k]) == v.entries[k] {
        MergeIdempotent(v.entries[k]);
      }
      assert Merge(v, v).entries == v.entries;
    }
  }

  /** Every key of `a` is in `c`, and tables meeting tables are absorbed in turn. */
  predicate Absorbed(a: Value, c: Value)
    decreases c
  {
    a.Table? && c.Table? ==>
      forall k | k in a.entries :: k in c.entries && Absorbed(a.entries[k], c.entries[k])
  }

  lemma {:induction false} AbsorbedIff(a: Value, c: Value)
    ensures Merge(a, c) == c <==> Absorbed(a, c)
    decreases c
  {
    if a.Table? && c.Table? {
      var m := Merge(a, c).entries;
      forall k | k in a.entries && k in c.entries
        ensures m[k] == c.entries[k] <==> Absorbed(a.entries[k], c.entries[k])
      {
        AbsorbedIff(a.entries[k], c.entries[k]);
      }
      if Absorbed(a, c) {
        assert m == c.entries;
      } else if m == c.entries {
        forall k | k in a.entries ensures k in c.entries && Absorbed(a.entries[k], c.entries[k]) {
          assert k in m;
        }
      }
    }
  }

  /** Laying the same overlay twice is laying it once. */
  lemma {:induction false} RepeatedOverlayAbsorbed(base: Value, overlay: Value)
    ensures Merge(Merge(base, overlay), overlay) == Merge(base, overlay)
    decreases overlay
  {
    if base.Table? && overlay.Table? {
      var once := Merge(base, overlay);
      forall k | k in overlay.entries ensures Merge(once.entries[k], overlay.entries[k]) == once.entries[k] {
        if k in base.entries {
          RepeatedOverlayAbsorbed(base.entries[k], overlay.entries[k]);
        } else {
          MergeIdempotent(overlay.entries[k]);
        }
      }
      assert Merge(once, overlay).entries == once.entries;
    } else {
      MergeIdempotent(overlay);
    }
  }

  /** Wherever the middle configuration has a non-table between two tables, the last absorbs the first. */
  predicate Regroupable(a: Value, b: Value, c: Value)
    decreases c
  {
    a.Table? && c.Table? ==>
      if b.Table? then
        forall k | k in a.entries && k in b.entries && k in c.entries ::
          Regroupable(a.entries[k], b.entries[k], c.entries[k])
      else Absorbed(a, c)
  }

  /** Overlays may be regrouped exactly under that condition. */
  lemma {:induction false} MergeAssociativeIff(a: Value, b: Value, c: Value)
    ensures Merge(Merge(a, b), c) == Merge(a, Merge(b, c)) <==> Regroupable(a, b, c)
    decreases c
  {
    if a.Table? && c.Table? {
      if b.Table? {
        AssociativeKeywise(a, b, c);
      } else {
        AbsorbedIff(a, c);
      }
    }
  }

  lemma {:induction false} AssociativeKeywise(a: Value, b: Value, c: Value)
    requires a.Table? && b.Table? && c.Table?
    ensures Merge(Merge(a, b), c) == Merge(a, Merge(b, c)) <==> Regroupable(a, b, c)
    decreases c, 0
  {
    var l, r := Merge(Merge(a, b), c).entries, Merge(a, Merge(b, c)).entries;
    assert l.Keys == r.Keys;
    forall k | k in a.entries && k in b.entries && k in c.entries
      ensures l[k] == r[k] <==> Regroupable(a.entries[k], b.entries[k], c.entries[k])
    {
      MergeAssociativeIff(a.entries[k], b.entries[k], c.entries[k]);
    }
    forall k | k in l && !(k in a.entries && k in b.entries && k in c.entries) ensures l[k] == r[k] {
    }
    if Regroupable(a, b, c) {
      forall k | k in l ensures l[k] == r[k] {
      }
      assert l == r;
    }
  }

  /** The middle configuration never puts a non-table where both outer ones have tables. */
  predicate NoTableHidden(a: Value, b: Value, c: Value)
    decreases c
  {
    a.Table? && c.Table? ==>
      b.Table? && forall k | k in a.entries && k in b.entries && k in c.entries ::
                    NoTableHidden(a.entries[k], b.entries[k], c.entries[k])
  }

  lemma {:induction false} NoTableHiddenRegroups(a: Value, b: Value, c: Value)
    requires NoTableHidden(a, b, c)
    ensures Merge(Merge(a, b), c) == Merge(a, Merge(b, c))
    decreases c
  {
    NoTableHiddenSuffices(a, b, c);
    MergeAssociativeIff(a, b, c);
  }

  lemma {:induction false} NoTableHiddenSuffices(a: Value, b: Value, c: Value)
    requires NoTableHidden(a, b, c)
    ensures Regroupable(a, b, c)
    decreases c
  {
    if a.Table? && c.Table? {
      forall k | k in a.entries && k in b.entries && k in c.entries
        ensures Regroupable(a.entries[k], b.entries[k], c.entries[k])
      {
        NoTableHiddenSuffices(a.entries[k], b.entries[k], c.entries[k]);
      }
    }
  }

  lemma RegroupableAt(a: Value, b: Value, c: Value, k: string)
    requires a.Table? && b.Table? && c.Table? && k in a.entries && k in b.entries && k in c.entries
    requires Regroupable(a, b, c)
    ensures Regroupable(a.entries[k], b.entries[k], c.entries[k])
  {
  }

  lemma KeyNotAbsorbed(a: Value, c: Value, k: string)
    requires a.Table? && c.Table? && k in a.entries && k !in c.entries
    ensures !Absorbed(a, c)
  {
  }

  /** Merging is not associative in general: a scalar between two tables hides the first one's keys. */
  lemma ScalarBetweenTables()
    ensures var a := Table(map["k" := Table(map["x" := Int(1)])]);
            var b := Table(map["k" := Int(0)]);
            var c := Table(map["k" := Table(map[])]);
            Merge(Merge(a, b), c) != Merge(a, Merge(b, c))
  {
    hide Merge;
    hide Absorbed;
    var inner, none := Table(map["x" := Int(1)]), Table(map[]);
    var a, b, c := Table(map["k" := inner]), Table(map["k" := Int(0)]), Table(map["k" := none]);
    KeyNotAbsorbed(inner, none, "x");
    assert !Regroupable(inner, Int(0), none);
    hide Regroupable;
    if Regroupable(a, b, c) {
      RegroupableAt(a, b, c, "k");
      assert false;
    }
    MergeAssociativeIff(a, b, c);
  }
}
