/** The path-aware strip as it runs: keys popped out of the dictionaries of a dump, in place.  A dump is a
    tree of dictionary objects; the strip changes the tree under the same objects. */
module SnapshotStripInPlace {
  import opened JsonText
  import opened PauseSnapshots
  import opened Sequences

  /** A Python dictionary; `owned` holds it and every container below it. */
  class PyDict {
    var entries: map<string, PyValue>
    ghost const owned: set<object>

    constructor (entries: map<string, PyValue>, ghost below: set<object>)
      ensures this.entries == entries && owned == below + {this}
    {
      this.entries := entries;
      this.owned := below + {this};
    }
  }

  /** A Python list; no code here changes one. */
  class PyItems {
    const items: seq<PyValue>
    ghost const owned: set<object>

    constructor (items: seq<PyValue>, ghost below: set<object>)
      ensures this.items == items && owned == below + {this}
    {
      this.items := items;
      this.owned := below + {this};
    }
  }

  datatype PyValue = PyNone | PyBool(b: bool) | PyInt(n: int) | PyFloat(repr: FloatText) | PyStr(s: string)
                   | PyList(l: PyItems) | PyRef(d: PyDict)

  // ---------------------------------------------------------------- trees of containers

  ghost function Owned(v: PyValue): set<object> {
    match v
    case PyRef(d) => d.owned
    case PyList(l) => l.owned
    case _ => {}
  }

  /** No container is reachable along two paths, or from itself. */
  ghost predicate Tree(v: PyValue)
    reads Owned(v)
    decreases Owned(v)
  {
    match v
    case PyRef(d) =>
      && d in d.owned
      && (forall k | k in d.entries :: Owned(d.entries[k]) <= d.owned - {d} && Tree(d.entries[k]))
      && (forall k, m | k in d.entries && m in d.entries && k != m :: Owned(d.entries[k]) !! Owned(d.entries[m]))
    case PyList(l) =>
      && l in l.owned
      && (forall i | 0 <= i < |l.items| :: Owned(l.items[i]) <= l.owned - {l} && Tree(l.items[i]))
      && (forall i, j | 0 <= i < j < |l.items| :: Owned(l.items[i]) !! Owned(l.items[j]))
    case _ => true
  }

  /** The JSON value a tree stands for. */
  function ReadJson(v: PyValue): Json
    requires Tree(v)
    reads Owned(v)
    decreases Owned(v), 1
  {
    match v
    case PyNone => JNull
    case PyBool(b) => JBool(b)
    case PyInt(n) => JInt(n)
    case PyFloat(r) => JFloat(r)
    case PyStr(s) => JString(s)
    case PyList(l) => JArray(ReadItems(l, |l.items|))
    case PyRef(d) => JObject(map k | k in d.entries :: ReadJson(d.entries[k]))
  }

  function ReadItems(l: PyItems, n: nat): (js: seq<Json>)
    requires Tree(PyList(l)) && n <= |l.items|
    reads l.owned
    ensures |js| == n && forall i | 0 <= i < n :: js[i] == ReadJson(l.items[i])
    decreases l.owned, 0, n
  {
    if n == 0 then [] else ReadItems(l, n - 1) + [ReadJson(l.items[n - 1])]
  }

  /** `get(k)`, with `None` for a missing key. */
  function Get(d: PyDict, k: string): PyValue
    reads d
  {
    if k in d.entries then d.entries[k] else PyNone
  }

  predicate Truthy(v: PyValue)
    reads if v.PyRef? then {v.d} else {}
  {
    match v
    case PyNone => false
    case PyBool(b) => b
    case PyInt(n) => n != 0
    case PyFloat(r) => !(r == "0.0" || r == "-0.0")
    case PyStr(s) => s != ""
    case PyList(l) => l.items != []
    case PyRef(d) => d.entries != map[]
  }

  lemma TruthyIsNotFalsy(v: PyValue)
    requires Tree(v)
    ensures Truthy(v) == !Falsy(ReadJson(v))
    ensures v.PyNone? <==> ReadJson(v).JNull?
    ensures v.PyList? <==> ReadJson(v).JArray?
    ensures v.PyRef? <==> ReadJson(v).JObject?
  {
    hide ReadJson;
    hide ReadItems;
    hide Tree;
    match v
    case PyRef(d) => ReadDict(d);
    case PyList(l) => ReadList(l);
    case _ => ReadScalar(v);
  }

  lemma ReadDict(d: PyDict)
    requires Tree(PyRef(d))
    ensures ReadJson(PyRef(d)).JObject? && (ReadJson(PyRef(d)).members == map[] <==> d.entries == map[])
  {
    assert ReadJson(PyRef(d)).members.Keys == d.entries.Keys;
  }

  lemma ReadList(l: PyItems)
    requires Tree(PyList(l))
    ensures ReadJson(PyList(l)).JArray? && |ReadJson(PyList(l)).items| == |l.items|
  {
  }

  lemma ReadScalar(v: PyValue)
    requires Tree(v) && !v.PyRef? && !v.PyList?
    ensures ReadJson(v) == match v
                           case PyNone => JNull
                           case PyBool(b) => JBool(b)
                           case PyInt(n) => JInt(n)
                           case PyFloat(r) => JFloat(r)
                           case PyStr(s) => JString(s)
                           case _ => JNull
  {
  }

  lemma ReadEntry(d: PyDict, k: string)
    requires Tree(PyRef(d))
    ensures ReadJson(PyRef(d)).JObject?
    ensures k in d.entries <==> k in ReadJson(PyRef(d)).members
    ensures k in d.entries ==> Tree(d.entries[k]) && ReadJson(PyRef(d)).members[k] == ReadJson(d.entries[k])
    ensures k in d.entries ==> Owned(d.entries[k]) <= Owned(PyRef(d)) - {d}
    ensures d in d.owned && Owned(PyRef(d)) == d.owned
  {
  }

  lemma ReadEntries(d: PyDict)
    requires Tree(PyRef(d))
    ensures ReadJson(PyRef(d)).JObject? && ReadJson(PyRef(d)).members.Keys == d.entries.Keys
    ensures forall k | k in d.entries :: Tree(d.entries[k]) && ReadJson(PyRef(d)).members[k] == ReadJson(d.entries[k])
  {
  }

  lemma DictOf(d: PyDict, m: map<string, Json>)
    requires Tree(PyRef(d)) && m.Keys == d.entries.Keys
    requires forall k | k in d.entries :: m[k] == ReadJson(d.entries[k])
    ensures ReadJson(PyRef(d)) == JObject(m)
  {
    assert ReadJson(PyRef(d)).members == m;
  }

  /** What makes a dictionary a tree, taken apart and put together. */
  lemma DictParts(d: PyDict)
    requires Tree(PyRef(d))
    ensures d in d.owned
    ensures forall k | k in d.entries :: Owned(d.entries[k]) <= d.owned - {d} && Tree(d.entries[k])
    ensures forall k, m | k in d.entries && m in d.entries && k != m :: Owned(d.entries[k]) !! Owned(d.entries[m])
  {
  }

  lemma DictTree(d: PyDict)
    requires d in d.owned
    requires forall k | k in d.entries :: Owned(d.entries[k]) <= d.owned - {d} && Tree(d.entries[k])
    requires forall k, m | k in d.entries && m in d.entries && k != m :: Owned(d.entries[k]) !! Owned(d.entries[m])
    ensures Tree(PyRef(d))
  {
  }

  lemma ListItems(l: PyItems)
    requires Tree(PyList(l))
    ensures forall i | 0 <= i < |l.items| :: Tree(l.items[i]) && Owned(l.items[i]) <= Owned(PyList(l))
    ensures forall i, j | 0 <= i < j < |l.items| :: Owned(l.items[i]) !! Owned(l.items[j])
    ensures ReadJson(PyList(l)).JArray? && |ReadJson(PyList(l)).items| == |l.items|
    ensures forall i | 0 <= i < |l.items| :: ReadJson(PyList(l)).items[i] == ReadJson(l.items[i])
  {
  }

  // ---------------------------------------------------------------- model_dump

  /** `model_dump(mode="json")` builds its result out of containers nothing else holds. */
  method ModelDump(j: Json) returns (v: PyValue)
    ensures Tree(v) && fresh(Owned(v)) && ReadJson(v) == j
    decreases j, 1
  {
    match j
    case JNull => v := PyNone;
    case JBool(b) => v := PyBool(b);
    case JInt(n) => v := PyInt(n);
    case JFloat(r) => v := PyFloat(r);
    case JString(s) => v := PyStr(s);
    case JArray(items) => v := DumpList(j);
    case JObject(members) => v := DumpDict(j);
  }

  /** The items dumped so far: whole, apart from each other, and owned by `below`. */
  ghost predicate ItemsDumped(items: seq<PyValue>, below: set<object>, js: seq<Json>)
    reads below
  {
    && |items| <= |js|
    && (forall n | 0 <= n < |items| :: Owned(items[n]) <= below && Tree(items[n]) && ReadJson(items[n]) == js[n])
    && (forall m, n | 0 <= m < n < |items| :: Owned(items[m]) !! Owned(items[n]))
  }

  lemma NoItemDumped(js: seq<Json>)
    ensures ItemsDumped([], {}, js)
  {
  }

  lemma ItemRead(items: seq<PyValue>, below: set<object>, js: seq<Json>, n: nat)
    requires ItemsDumped(items, below, js) && n < |items|
    ensures Owned(items[n]) <= below && Tree(items[n]) && ReadJson(items[n]) == js[n]
  {
    hide Owned;
    hide Tree;
    hide ReadJson;
  }

  lemma OneItemRead(items: seq<PyValue>, below: set<object>, js: seq<Json>, item: PyValue, n: nat)
    requires ItemsDumped(items, below, js) && n <= |items| < |js|
    requires Tree(item) && ReadJson(item) == js[|items|]
    ensures var one := (items + [item])[n];
            Owned(one) <= below + Owned(item) && Tree(one) && ReadJson(one) == js[n]
  {
    hide Owned;
    hide Tree;
    hide ReadJson;
    hide ItemsDumped;
    if n < |items| {
      ItemRead(items, below, js, n);
      assert (items + [item])[n] == items[n];
    } else {
      assert (items + [item])[n] == item;
    }
  }

  lemma OneMoreRead(items: seq<PyValue>, below: set<object>, js: seq<Json>, item: PyValue)
    requires ItemsDumped(items, below, js) && |items| < |js|
    requires Tree(item) && ReadJson(item) == js[|items|]
    ensures var more := items + [item];
            forall n | 0 <= n < |more| ::
              Owned(more[n]) <= below + Owned(item) && Tree(more[n]) && ReadJson(more[n]) == js[n]
  {
    hide Owned;
    hide Tree;
    hide ReadJson;
    hide ItemsDumped;
    var more := items + [item];
    forall n | 0 <= n < |more|
      ensures Owned(more[n]) <= below + Owned(item) && Tree(more[n]) && ReadJson(more[n]) == js[n]
    {
      OneItemRead(items, below, js, item, n);
    }
  }

  lemma OneMoreApart(items: seq<PyValue>, below: set<object>, js: seq<Json>, item: PyValue)
    requires ItemsDumped(items, below, js) && Owned(item) !! below
    ensures var more := items + [item];
            forall m, n | 0 <= m < n < |more| :: Owned(more[m]) !! Owned(more[n])
  {
    hide Owned;
    hide Tree;
    hide ReadJson;
    var more := items + [item];
    forall m, n | 0 <= m < n < |more| ensures Owned(more[m]) !! Owned(more[n]) {
      assert more[m] == items[m] && Owned(items[m]) <= below;
      if n < |items| { assert more[n] == items[n]; }
    }
  }

  lemma OneMoreItem(items: seq<PyValue>, below: set<object>, js: seq<Json>, item: PyValue)
    requires ItemsDumped(items, below, js) && |items| < |js|
    requires Tree(item) && Owned(item) !! below && ReadJson(item) == js[|items|]
    ensures ItemsDumped(items + [item], below + Owned(item), js)
  {
    hide Owned;
    hide Tree;
    hide ReadJson;
    OneMoreRead(items, below, js, item);
    OneMoreApart(items, below, js, item);
  }

  method DumpList(j: Json) returns (v: PyValue)
    requires j.JArray?
    ensures Tree(v) && fresh(Owned(v)) && ReadJson(v) == j
    decreases j, 0
  {
    hide *;
    var items: seq<PyValue> := [];
    ghost var below: set<object> := {};
    NoItemDumped(j.items);
    for i := 0 to |j.items|
      invariant |items| == i && fresh(below) && ItemsDumped(items, below, j.items)
    {
      var item := ModelDump(j.items[i]);
      OneMoreItem(items, below, j.items, item);
      items := items + [item];
      below := below + Owned(item);
    }
    v := NewList(items, below, j);
  }

  method NewList(items: seq<PyValue>, ghost below: set<object>, ghost j: Json) returns (v: PyValue)
    requires j.JArray? && |items| == |j.items| && ItemsDumped(items, below, j.items)
    ensures Tree(v) && ReadJson(v) == j && forall o | o in Owned(v) :: o in below || fresh(o)
  {
    var l := new PyItems(items, below);
    v := PyList(l);
    assert ReadItems(l, |items|) == j.items;
  }

  /** The entries dumped so far: whole, apart from each other, and owned by `below`. */
  ghost predicate DumpedSoFar(entries: map<string, PyValue>, below: set<object>, members: map<string, Json>)
    reads below
  {
    && (forall k | k in entries :: Owned(entries[k]) <= below && Tree(entries[k]))
    && (forall k | k in entries :: k in members && ReadJson(entries[k]) == members[k])
    && (forall k, m | k in entries && m in entries && k != m :: Owned(entries[k]) !! Owned(entries[m]))
  }

  lemma NothingDumped(members: map<string, Json>)
    ensures DumpedSoFar(map[], {}, members)
  {
  }

  lemma OneMoreDumped(entries: map<string, PyValue>, below: set<object>, members: map<string, Json>, k: string,
                      value: PyValue)
    requires DumpedSoFar(entries, below, members) && k !in entries && k in members
    requires Tree(value) && Owned(value) !! below && ReadJson(value) == members[k]
    ensures DumpedSoFar(entries[k := value], below + Owned(value), members)
  {
    hide Owned;
    hide Tree;
    hide ReadJson;
  }

  method DumpDict(j: Json) returns (v: PyValue)
    requires j.JObject?
    ensures Tree(v) && fresh(Owned(v)) && ReadJson(v) == j
    decreases j, 0
  {
    hide *;
    var entries: map<string, PyValue> := map[];
    var todo := j.members.Keys;
    ghost var below: set<object> := {};
    NothingDumped(j.members);
    while todo != {}
      invariant entries.Keys + todo == j.members.Keys && entries.Keys !! todo && fresh(below)
      invariant DumpedSoFar(entries, below, j.members)
      decreases todo
    {
      var k :| k in todo;
      var value := ModelDump(j.members[k]);
      OneMoreDumped(entries, below, j.members, k, value);
      entries := entries[k := value];
      todo := todo - {k};
      below := below + Owned(value);
    }
    v := NewDict(entries, below, j);
  }

  lemma DumpedParts(entries: map<string, PyValue>, below: set<object>, members: map<string, Json>)
    requires DumpedSoFar(entries, below, members)
    ensures forall k | k in entries :: Owned(entries[k]) <= below && Tree(entries[k])
    ensures forall k | k in entries :: k in members && ReadJson(entries[k]) == members[k]
    ensures forall k, m | k in entries && m in entries && k != m :: Owned(entries[k]) !! Owned(entries[m])
  {
  }

  method NewDict(entries: map<string, PyValue>, ghost below: set<object>, ghost j: Json) returns (v: PyValue)
    requires j.JObject? && entries.Keys == j.members.Keys && DumpedSoFar(entries, below, j.members)
    ensures Tree(v) && ReadJson(v) == j && forall o | o in Owned(v) :: o in below || fresh(o)
  {
    hide Tree;
    hide ReadJson;
    hide DumpedSoFar;
    var d := new PyDict(entries, below);
    v := PyRef(d);
    DumpedParts(entries, below, j.members);
    DictTree(d);
    DictOf(d, j.members);
  }

  // ---------------------------------------------------------------- what one change does to the whole

  method Pop(d: PyDict, k: string)
    requires Tree(PyRef(d))
    modifies d
    ensures Tree(PyRef(d)) && d.entries == old(d.entries) - {k}
    ensures ReadJson(PyRef(d)) == JObject(old(ReadJson(PyRef(d))).members - {k})
  {
    hide ReadJson;
    hide Tree;
    ReadEntries(d);
    DictParts(d);
    ghost var m := ReadJson(PyRef(d)).members;
    d.entries := d.entries - {k};
    DictTree(d);
    DictOf(d, m - {k});
  }

  /** `if d.get(k) is None: d.pop(k, None)` */
  method PopNone(d: PyDict, k: string)
    requires Tree(PyRef(d))
    modifies d
    ensures Tree(PyRef(d)) && ReadJson(PyRef(d)) == JObject(PopIfNull(old(ReadJson(PyRef(d))).members, k))
  {
    hide *;
    ReadEntry(d, k);
    PopsAre(ReadJson(PyRef(d)).members, k);
    GetIs(d, k);
    if Get(d, k).PyNone? {
      Pop(d, k);
    }
  }

  /** `if not d.get(k): d.pop(k, None)` */
  method PopFalsy(d: PyDict, k: string)
    requires Tree(PyRef(d))
    modifies d
    ensures Tree(PyRef(d)) && ReadJson(PyRef(d)) == JObject(PopIfFalsy(old(ReadJson(PyRef(d))).members, k))
  {
    hide *;
    ReadEntry(d, k);
    PopsAre(ReadJson(PyRef(d)).members, k);
    GetIs(d, k);
    var v := Get(d, k);
    if !Truthy(v) {
      Pop(d, k);
    }
  }

  lemma GetIs(d: PyDict, k: string)
    requires Tree(PyRef(d))
    ensures k in d.entries ==> Get(d, k) == d.entries[k] && Tree(d.entries[k])
    ensures k in d.entries ==> Truthy(Get(d, k)) == !Falsy(ReadJson(d.entries[k]))
    ensures k in d.entries ==> (Get(d, k).PyNone? <==> ReadJson(d.entries[k]).JNull?)
    ensures k in d.entries ==> (Get(d, k).PyRef? <==> ReadJson(d.entries[k]).JObject?)
    ensures k in d.entries ==> (Get(d, k).PyList? <==> ReadJson(d.entries[k]).JArray?)
    ensures k !in d.entries ==> Get(d, k).PyNone? && !Truthy(Get(d, k))
  {
    hide ReadJson;
    hide Falsy;
    if k in d.entries { TruthyIsNotFalsy(d.entries[k]); }
  }

  // ---------------------------------------------------------------- the strip

  /** The strip applied to the carrier under `k`, if there is one. */
  method StripNested(child: PyDict, k: string)
    requires Tree(PyRef(child))
    modifies child.owned - {child}
    ensures Tree(PyRef(child))
    ensures ReadJson(PyRef(child)) == JObject(StripAt(old(ReadJson(PyRef(child))).members, k))
    decreases child.owned, 1
  {
    hide *;
    ReadEntry(child, k);
    StripAtIs(ReadJson(PyRef(child)).members, k);
    if k in child.entries {
      StripNestedEntry(child, k);
    }
  }

  method StripNestedEntry(child: PyDict, k: string)
    requires Tree(PyRef(child)) && k in child.entries
    modifies child.owned - {child}
    ensures Tree(PyRef(child))
    ensures var m := old(ReadJson(PyRef(child))).members;
            k in m && ReadJson(PyRef(child)) == JObject(m[k := StripCarrier(m[k])])
    decreases child.owned, 0
  {
    hide StripCarrier;
    hide ReadJson;
    hide Tree;
    ReadEntries(child);
    DictParts(child);
    ghost var m := ReadJson(PyRef(child)).members;
    StripDefaultFanoutResumeFields(child.entries[k]);
    DictTree(child);
    DictOf(child, m[k := StripCarrier(m[k])]);
  }

  /** An entry rewritten by the strip. */
  function StripAt(m: map<string, Json>, k: string): map<string, Json> {
    if k in m then m[k := StripCarrier(m[k])] else m
  }

  lemma StripAtIs(m: map<string, Json>, k: string)
    ensures StripAt(m, k) == if k in m then m[k := StripCarrier(m[k])] else m
  {
    hide StripCarrier;
  }

  lemma StripSnapshotSteps(m: map<string, Json>)
    ensures StripObject(JObject(m)) == StripSnapshot(JObject(m))
         == JObject(StripAt(StripAt(PopIfNull(m, "orchestrator_effect_fence_resume"), "fan_out_resume"),
                            "peer_fan_out_resume"))
  {
    hide StripCarrier;
  }

  method StripPausedChild(pcb: PyValue)
    requires Tree(pcb)
    modifies Owned(pcb)
    ensures Tree(pcb) && ReadJson(pcb) == StripChild(old(ReadJson(pcb)))
    decreases Owned(pcb), 1
  {
    hide *;
    TruthyIsNotFalsy(pcb);
    StripChildIs(ReadJson(pcb));
    if !pcb.PyRef? {
      return;
    }
    ReadEntry(pcb.d, "child_snapshot");
    GetIs(pcb.d, "child_snapshot");
    if Get(pcb.d, "child_snapshot").PyRef? {
      StripSnapshotEntry(pcb.d);
    }
  }

  /** A dumped child snapshot, stripped; anything else as it is. */
  function StripObject(j: Json): Json {
    if j.JObject? then StripSnapshot(j) else j
  }

  lemma StripChildIs(j: Json)
    ensures StripChild(j) == if j.JObject? && "child_snapshot" in j.members && j.members["child_snapshot"].JObject?
                             then JObject(j.members["child_snapshot" := StripObject(j.members["child_snapshot"])])
                             else j
  {
    hide StripSnapshot;
  }

  method StripSnapshotEntry(pcb: PyDict)
    requires Tree(PyRef(pcb)) && "child_snapshot" in pcb.entries && pcb.entries["child_snapshot"].PyRef?
    modifies pcb.owned - {pcb}
    ensures Tree(PyRef(pcb))
    ensures var m := old(ReadJson(PyRef(pcb))).members;
            && "child_snapshot" in m
            && ReadJson(PyRef(pcb)) == JObject(m["child_snapshot" := StripObject(m["child_snapshot"])])
    decreases pcb.owned, 0
  {
    hide StripObject;
    hide ReadJson;
    hide Tree;
    ReadEntries(pcb);
    DictParts(pcb);
    ghost var m := ReadJson(PyRef(pcb)).members;
    StripChildSnapshot(pcb.entries["child_snapshot"].d);
    DictTree(pcb);
    DictOf(pcb, m["child_snapshot" := StripObject(m["child_snapshot"])]);
  }

  method StripChildSnapshot(child: PyDict)
    requires Tree(PyRef(child))
    modifies child.owned
    ensures Tree(PyRef(child)) && ReadJson(PyRef(child)) == StripObject(old(ReadJson(PyRef(child))))
    decreases child.owned, 2
  {
    hide *;
    ReadEntry(child, "orchestrator_effect_fence_resume");
    StripSnapshotSteps(ReadJson(PyRef(child)).members);
    PopNone(child, "orchestrator_effect_fence_resume");
    StripNested(child, "fan_out_resume");
    StripNested(child, "peer_fan_out_resume");
  }

  /** One turn of the loop over the paused children; the others are other containers. */
  method StripItem(l: PyItems, i: nat)
    requires Tree(PyList(l)) && i < |l.items|
    modifies l.owned - {l}
    ensures Tree(PyList(l))
    ensures var js := old(ReadJson(PyList(l))).items;
            |js| == |l.items| && ReadJson(PyList(l)) == JArray(js[i := StripChild(js[i])])
    decreases l.owned, 1
  {
    hide StripChild;
    ghost var js := ReadJson(PyList(l)).items;
    StripPausedChild(l.items[i]);
    assert ReadItems(l, |l.items|) == js[i := StripChild(js[i])];
  }

  /** The list after the first `n` children have been stripped. */
  function StrippedUpTo(js: seq<Json>, n: nat): (r: seq<Json>)
    requires n <= |js|
    ensures |r| == |js|
  {
    StripChildren(js[..n]) + js[n..]
  }

  lemma ChangeMiddle<T>(a: seq<T>, x: T, y: T, b: seq<T>)
    ensures (a + ([x] + b))[|a|] == x && (a + ([x] + b))[|a| := y] == a + [y] + b
  {
  }

  lemma StrippedNext(js: seq<Json>, n: nat)
    requires n < |js|
    ensures StrippedUpTo(js, n)[n] == js[n]
    ensures StrippedUpTo(js, n + 1) == StrippedUpTo(js, n)[n := StripChild(js[n])]
  {
    hide StripChild;
    hide StripChildren;
    assert js[..n + 1] == js[..n] + [js[n]];
    StripChildrenSnoc(js[..n], js[n]);
    assert js[n..] == [js[n]] + js[n + 1..];
    ChangeMiddle(StripChildren(js[..n]), js[n], StripChild(js[n]), js[n + 1..]);
  }

  lemma StripChildrenOne(js: seq<Json>)
    requires js != []
    ensures StripChildren(js) == [StripChild(js[0])] + StripChildren(js[1..])
  {
    hide StripChild;
  }

  lemma OneChildStripped(j: Json)
    ensures StripChildren([] + [j]) == StripChildren([]) + [StripChild(j)]
  {
    hide StripChild;
    assert [] + [j] == [j] && [j][1..] == [];
  }

  lemma {:induction false} StripChildrenSnoc(js: seq<Json>, j: Json)
    ensures StripChildren(js + [j]) == StripChildren(js) + [StripChild(j)]
  {
    hide *;
    if js == [] {
      OneChildStripped(j);
    } else {
      ConsConcat(js, [j]);
      StripChildrenOne(js + [j]);
      StripChildrenOne(js);
      StripChildrenSnoc(js[1..], j);
      ConcatAssociates([StripChild(js[0])], StripChildren(js[1..]), [StripChild(j)]);
    }
  }

  /** The loop over the paused children. */
  method StripPausedChildren(pausedChildren: PyItems)
    requires Tree(PyList(pausedChildren))
    modifies pausedChildren.owned
    ensures Tree(PyList(pausedChildren))
    ensures ReadJson(PyList(pausedChildren)) == StripList(old(ReadJson(PyList(pausedChildren))))
    decreases pausedChildren.owned, 2
  {
    hide *;
    ListItems(pausedChildren);
    ghost var js := ReadJson(PyList(pausedChildren)).items;
    StripListIs(ReadJson(PyList(pausedChildren)));
    NoneStripped(js);
    for i := 0 to |pausedChildren.items|
      invariant Tree(PyList(pausedChildren)) && ReadJson(PyList(pausedChildren)) == JArray(StrippedUpTo(js, i))
    {
      StripItem(pausedChildren, i);
      StrippedNext(js, i);
    }
  }

  lemma NoneStripped(js: seq<Json>)
    ensures StrippedUpTo(js, 0) == js && StrippedUpTo(js, |js|) == StripChildren(js)
  {
    assert js[..|js|] == js;
  }

  function StripList(j: Json): Json {
    if j.JArray? then JArray(StripChildren(j.items)) else j
  }

  lemma StripListIs(j: Json)
    ensures j.JArray? ==> StripList(j) == JArray(StripChildren(j.items))
  {
    hide StripChildren;
  }

  method StripPausedEntry(carrier: PyDict)
    requires Tree(PyRef(carrier))
    requires "paused_child_branches" in carrier.entries && carrier.entries["paused_child_branches"].PyList?
    modifies carrier.owned - {carrier}
    ensures Tree(PyRef(carrier))
    ensures var m := old(ReadJson(PyRef(carrier))).members;
            && "paused_child_branches" in m
            && ReadJson(PyRef(carrier)) == JObject(m["paused_child_branches" := StripList(m["paused_child_branches"])])
    decreases carrier.owned, 3
  {
    hide StripList;
    hide ReadJson;
    hide Tree;
    ReadEntries(carrier);
    DictParts(carrier);
    ghost var m := ReadJson(PyRef(carrier)).members;
    StripPausedChildren(carrier.entries["paused_child_branches"].l);
    DictTree(carrier);
    DictOf(carrier, m["paused_child_branches" := StripList(m["paused_child_branches"])]);
  }

  /** The whole strip: afterwards the same objects read as the stripped dump. */
  method StripDefaultFanoutResumeFields(carrierDump: PyValue)
    requires Tree(carrierDump)
    modifies Owned(carrierDump)
    ensures Tree(carrierDump) && ReadJson(carrierDump) == StripCarrier(old(ReadJson(carrierDump)))
    decreases Owned(carrierDump), 4
  {
    hide *;
    TruthyIsNotFalsy(carrierDump);
    StripCarrierIs(ReadJson(carrierDump));
    if !carrierDump.PyRef? {
      return;
    }
    var carrier := carrierDump.d;
    ReadEntry(carrier, "paused_child_branches");
    PopNone(carrier, "synthesis_step_id");
    PopFalsy(carrier, "effect_fence_paused_branches");
    ReadEntry(carrier, "paused_child_branches");
    GetIs(carrier, "paused_child_branches");
    if Get(carrier, "paused_child_branches").PyList? {
      StripPausedEntry(carrier);
    }
  }

  lemma StripCarrierIs(j: Json)
    ensures StripCarrier(j)
         == if !j.JObject? then j
            else
              var m := PopIfFalsy(PopIfNull(j.members, "synthesis_step_id"), "effect_fence_paused_branches");
              if "paused_child_branches" in m && m["paused_child_branches"].JArray?
              then JObject(m["paused_child_branches" := StripList(m["paused_child_branches"])])
              else JObject(m)
  {
    hide StripChildren;
  }

  lemma PopsAre(m: map<string, Json>, k: string)
    ensures PopIfNull(m, k) == if k in m && m[k].JNull? then m - {k} else m
    ensures PopIfFalsy(m, k) == if k in m && Falsy(m[k]) then m - {k} else m
    ensures k !in m ==> m - {k} == m
  {
    hide Falsy;
  }
}
