/** Sandbox cost attribution: exit events grouped by idempotency key, and what the grouping conserves. */
module CostAttributionJoin {
  import opened Wrappers
  import opened Sequences
  import opened SpanAttributes

  const IDEMPOTENCY_ATTR := "idempotency_key"
  const OVERHEAD_MS_ATTR := "sandbox.cost.tier_overhead_ms"
  const OVERHEAD_USD_ATTR := "sandbox.cost.tier_overhead_usd"

  datatype SpanEventKind = SandboxEnter | ToolCall | SandboxViolation | SandboxTierEscalation | SandboxExit

  datatype SandboxSpanEvent = SandboxSpanEvent(kind: SpanEventKind, parentSpanId: string, attributes: Attributes,
                                               timestamp: int)

  datatype Cost = Cost(ms: int, usd: real, events: nat)

  datatype CostAttribution = CostAttribution(idempotencyKey: string, totalTierOverheadMs: int,
                                             totalTierOverheadUsd: real, contributingEventCount: nat)

  const NO_COST := Cost(0, 0.0, 0)

  function Plus(a: Cost, b: Cost): Cost {
    Cost(a.ms + b.ms, a.usd + b.usd, a.events + b.events)
  }

  function Attribution(key: string, c: Cost): CostAttribution {
    CostAttribution(key, c.ms, c.usd, c.events)
  }

  function CostOf(a: CostAttribution): Cost {
    Cost(a.totalTierOverheadMs, a.totalTierOverheadUsd, a.contributingEventCount)
  }

  /** `event.attributes.get(name)`. */
  function Get(e: SandboxSpanEvent, name: string): Option<AttributeValue> {
    if name in e.attributes then Some(e.attributes[name]) else None
  }

  /** The key an event is billed to: an exit event's `idempotency_key`, if that is a string. */
  function BilledKey(e: SandboxSpanEvent): Option<string> {
    if e.kind != SandboxExit then None
    else
      match Get(e, IDEMPOTENCY_ATTR)
      case Some(StrValue(key)) => Some(key)
      case _ => None
  }

  /** An integer; a boolean counts as the integer it is; anything else, or nothing, as zero. */
  function OverheadMs(e: SandboxSpanEvent): int {
    match Get(e, OVERHEAD_MS_ATTR)
    case Some(IntValue(n)) => n
    case Some(BoolValue(b)) => if b then 1 else 0
    case _ => 0
  }

  function OverheadUsd(e: SandboxSpanEvent): real {
    match Get(e, OVERHEAD_USD_ATTR)
    case Some(IntValue(n)) => n as real
    case Some(FloatValue(x)) => x
    case Some(BoolValue(b)) => if b then 1.0 else 0.0
    case _ => 0.0
  }

  function EventCost(e: SandboxSpanEvent): Cost {
    Cost(OverheadMs(e), OverheadUsd(e), 1)
  }

  // ---------------------------------------------------------------- what a join is

  /** The cost of the events billed to `key`. */
  function BilledTo(events: seq<SandboxSpanEvent>, key: string): Cost {
    if events == [] then NO_COST
    else
      var (front, last) := (events[..|events| - 1], events[|events| - 1]);
      Plus(BilledTo(front, key), if BilledKey(last) == Some(key) then EventCost(last) else NO_COST)
  }

  /** The cost of all events billed to anyone. */
  function Billed(events: seq<SandboxSpanEvent>): Cost {
    if events == [] then NO_COST
    else
      var (front, last) := (events[..|events| - 1], events[|events| - 1]);
      Plus(Billed(front), if BilledKey(last).Some? then EventCost(last) else NO_COST)
  }

  type Joined = map<string, CostAttribution>

  /** One entry for each key with at least one event, holding that key's cost. */
  ghost predicate IsJoin(events: seq<SandboxSpanEvent>, joined: Joined) {
    forall key :: JoinedAt(events, joined, key)
  }

  ghost predicate JoinedAt(events: seq<SandboxSpanEvent>, joined: Joined, key: string) {
    if key in joined then
      joined[key] == Attribution(key, BilledTo(events, key)) && BilledTo(events, key).events > 0
    else
      BilledTo(events, key) == NO_COST
  }

  lemma Unfold(events: seq<SandboxSpanEvent>, e: SandboxSpanEvent, key: string)
    ensures BilledTo(events + [e], key)
         == Plus(BilledTo(events, key), if BilledKey(e) == Some(key) then EventCost(e) else NO_COST)
    ensures Billed(events + [e]) == Plus(Billed(events), if BilledKey(e).Some? then EventCost(e) else NO_COST)
  {
    hide BilledKey;
    hide EventCost;
    hide Plus;
    assert (events + [e])[..|events|] == events;
  }

  /** What the running `totals` hold after `events`. */
  ghost predicate Running(events: seq<SandboxSpanEvent>, totals: map<string, Cost>) {
    forall key :: RunningAt(events, totals, key)
  }

  ghost predicate RunningAt(events: seq<SandboxSpanEvent>, totals: map<string, Cost>, key: string) {
    if key in totals then
      totals[key].events > 0 && BilledTo(events, key) == totals[key]
    else
      BilledTo(events, key) == NO_COST
  }

  /** What one more event makes of the totals. */
  function Updated(totals: map<string, Cost>, e: SandboxSpanEvent): map<string, Cost> {
    match BilledKey(e)
    case None => totals
    case Some(key) => totals[key := Plus(if key in totals then totals[key] else NO_COST, EventCost(e))]
  }

  lemma RunningStep(events: seq<SandboxSpanEvent>, totals: map<string, Cost>, e: SandboxSpanEvent)
    requires Running(events, totals)
    ensures Running(events + [e], Updated(totals, e))
  {
    hide *;
    forall key ensures RunningAt(events + [e], Updated(totals, e), key) {
      RunningHas(events, totals, key);
      RunningStepAt(events, totals, e, key);
    }
    RunningOf(events + [e], Updated(totals, e));
  }

  lemma RunningHas(events: seq<SandboxSpanEvent>, totals: map<string, Cost>, key: string)
    requires Running(events, totals)
    ensures RunningAt(events, totals, key)
  {
    hide RunningAt;
  }

  lemma RunningOf(events: seq<SandboxSpanEvent>, totals: map<string, Cost>)
    requires forall key :: RunningAt(events, totals, key)
    ensures Running(events, totals)
  {
    hide RunningAt;
  }

  lemma RunningStepAt(events: seq<SandboxSpanEvent>, totals: map<string, Cost>, e: SandboxSpanEvent, key: string)
    requires RunningAt(events, totals, key)
    ensures RunningAt(events + [e], Updated(totals, e), key)
  {
    hide BilledTo;
    hide BilledKey;
    hide EventCost;
    hide Plus;
    Unfold(events, e, key);
    PlusMove(BilledTo(events, key), NO_COST, NO_COST, NO_COST);
    if BilledKey(e) == Some(key) {
      OneMoreEvent(if key in totals then totals[key] else NO_COST, e);
    }
  }

  lemma OneMoreEvent(c: Cost, e: SandboxSpanEvent)
    ensures Plus(c, EventCost(e)).events == c.events + 1
    ensures Plus(c, EventCost(e)) == Cost(c.ms + OverheadMs(e), c.usd + OverheadUsd(e), c.events + 1)
  {
    hide OverheadMs;
    hide OverheadUsd;
  }

  method JoinCostAttributionByIdempotencyKey(sandboxExitEvents: seq<SandboxSpanEvent>) returns (joined: Joined)
    ensures IsJoin(sandboxExitEvents, joined)
  {
    hide Running;
    hide IsJoin;
    hide Plus;
    hide EventCost;
    hide OverheadMs;
    hide OverheadUsd;
    var totals: map<string, Cost> := map[];
    assert Running([], totals) by { NothingRunning(); }
    for i := 0 to |sandboxExitEvents|
      invariant Running(sandboxExitEvents[..i], totals)
    {
      var event := sandboxExitEvents[i];
      assert sandboxExitEvents[..i + 1] == sandboxExitEvents[..i] + [event];
      ghost var before := totals;
      if event.kind == SandboxExit {
        var rawKey := Get(event, IDEMPOTENCY_ATTR);
        if rawKey.Some? && rawKey.value.StrValue? {
          var key := rawKey.value.s;
          var (ms, usd, count) :=
            if key in totals then (totals[key].ms, totals[key].usd, totals[key].events) else (0, 0.0, 0);
          OneMoreEvent(Cost(ms, usd, count), event);
          totals := totals[key := Cost(ms + OverheadMs(event), usd + OverheadUsd(event), count + 1)];
        }
      }
      RunningStep(sandboxExitEvents[..i], before, event);
    }
    assert sandboxExitEvents[..|sandboxExitEvents|] == sandboxExitEvents;
    joined := map key | key in totals :: Attribution(key, totals[key]);
    RunningIsJoin(sandboxExitEvents, totals, joined);
  }

  lemma NothingRunning()
    ensures Running([], map[])
  {
  }

  lemma RunningIsJoin(events: seq<SandboxSpanEvent>, totals: map<string, Cost>, joined: Joined)
    requires Running(events, totals)
    requires joined == map key | key in totals :: Attribution(key, totals[key])
    ensures IsJoin(events, joined)
  {
    hide BilledTo;
    forall key ensures JoinedAt(events, joined, key) {
      assert RunningAt(events, totals, key);
    }
  }

  /** There is only one join. */
  lemma JoinUnique(events: seq<SandboxSpanEvent>, a: Joined, b: Joined)
    requires IsJoin(events, a) && IsJoin(events, b)
    ensures a == b
  {
    hide BilledTo;
    forall key ensures (key in a <==> key in b) && (key in a ==> a[key] == b[key]) {
      assert JoinedAt(events, a, key) && JoinedAt(events, b, key);
    }
  }

  // ---------------------------------------------------------------- conservation

  function SumOver(joined: Joined, keys: seq<string>): Cost
    requires forall i | 0 <= i < |keys| :: keys[i] in joined
  {
    if keys == [] then NO_COST else Plus(CostOf(joined[keys[0]]), SumOver(joined, keys[1..]))
  }

  /** `keys` lists the keys of `joined`, each once, in any order. */
  predicate Enumerates(keys: seq<string>, joined: Joined) {
    (forall i | 0 <= i < |keys| :: keys[i] in joined)
    && (forall key | key in joined :: key in keys)
    && Distinct(keys)
  }

  /** The same sum over the events themselves. */
  function SumBilledTo(events: seq<SandboxSpanEvent>, keys: seq<string>): Cost {
    if keys == [] then NO_COST else Plus(BilledTo(events, keys[0]), SumBilledTo(events, keys[1..]))
  }

  lemma {:induction false} SumOverIsSumBilledTo(events: seq<SandboxSpanEvent>, joined: Joined, keys: seq<string>)
    requires IsJoin(events, joined) && forall i | 0 <= i < |keys| :: keys[i] in joined
    ensures SumOver(joined, keys) == SumBilledTo(events, keys)
  {
    hide BilledTo;
    if keys != [] {
      assert JoinedAt(events, joined, keys[0]);
      SumOverIsSumBilledTo(events, joined, keys[1..]);
    }
  }

  lemma PlusMove(a: Cost, b: Cost, c: Cost, d: Cost)
    ensures Plus(Plus(a, b), Plus(c, d)) == Plus(Plus(a, c), Plus(b, d))
    ensures Plus(a, NO_COST) == a == Plus(NO_COST, a)
  {
  }

  lemma SumBilledToUnfold(events: seq<SandboxSpanEvent>, keys: seq<string>)
    ensures SumBilledTo(events, []) == NO_COST
    ensures keys != [] ==> SumBilledTo(events, keys) == Plus(BilledTo(events, keys[0]), SumBilledTo(events, keys[1..]))
  {
    hide BilledTo;
    hide Plus;
  }

  /** The cost an event adds to a list of keys. */
  function Share(e: SandboxSpanEvent, keys: seq<string>): Cost {
    if BilledKey(e).Some? && BilledKey(e).value in keys then EventCost(e) else NO_COST
  }

  lemma ShareUnfold(e: SandboxSpanEvent, keys: seq<string>)
    requires keys != [] && Distinct(keys)
    ensures Distinct(keys[1..])
    ensures Share(e, keys)
         == Plus(if BilledKey(e) == Some(keys[0]) then EventCost(e) else NO_COST, Share(e, keys[1..]))
  {
    hide BilledKey;
    hide EventCost;
    hide Plus;
    PlusMove(EventCost(e), NO_COST, NO_COST, NO_COST);
    PlusMove(NO_COST, NO_COST, NO_COST, NO_COST);
    assert keys == [keys[0]] + keys[1..];
    assert keys[0] !in keys[1..];
  }

  /** One more event adds its cost once if its key is listed, and nothing otherwise. */
  lemma {:induction false} SumBilledToStep(events: seq<SandboxSpanEvent>, e: SandboxSpanEvent, keys: seq<string>)
    requires Distinct(keys)
    ensures SumBilledTo(events + [e], keys) == Plus(SumBilledTo(events, keys), Share(e, keys))
  {
    hide *;
    SumBilledToUnfold(events, keys);
    SumBilledToUnfold(events + [e], keys);
    if keys == [] {
      NoShare(e);
      PlusMove(NO_COST, NO_COST, NO_COST, NO_COST);
    } else {
      ShareUnfold(e, keys);
      SumBilledToStep(events, e, keys[1..]);
      Unfold(events, e, keys[0]);
      PlusMove(BilledTo(events, keys[0]), if BilledKey(e) == Some(keys[0]) then EventCost(e) else NO_COST,
               SumBilledTo(events, keys[1..]), Share(e, keys[1..]));
    }
  }

  lemma NoShare(e: SandboxSpanEvent)
    ensures Share(e, []) == NO_COST
  {
    hide BilledKey;
  }

  predicate AllListed(events: seq<SandboxSpanEvent>, keys: seq<string>) {
    forall i | 0 <= i < |events| :: BilledKey(events[i]).Some? ==> BilledKey(events[i]).value in keys
  }

  lemma {:induction false} SumBilledToAll(events: seq<SandboxSpanEvent>, keys: seq<string>)
    requires Distinct(keys) && AllListed(events, keys)
    ensures SumBilledTo(events, keys) == Billed(events)
  {
    hide *;
    if events == [] {
      NothingBilled(keys);
    } else {
      var front, last := events[..|events| - 1], events[|events| - 1];
      assert events == front + [last];
      AllListedLast(front, last, keys);
      SumBilledToAll(front, keys);
      SumBilledToStep(front, last, keys);
      Unfold(front, last, "");
    }
  }

  lemma AllListedLast(events: seq<SandboxSpanEvent>, e: SandboxSpanEvent, keys: seq<string>)
    requires AllListed(events + [e], keys)
    ensures AllListed(events, keys)
    ensures Share(e, keys) == if BilledKey(e).Some? then EventCost(e) else NO_COST
  {
    hide BilledKey;
    hide EventCost;
    forall i | 0 <= i < |events| ensures BilledKey(events[i]).Some? ==> BilledKey(events[i]).value in keys {
      assert (events + [e])[i] == events[i];
    }
    assert (events + [e])[|events|] == e;
  }

  lemma {:induction false} NothingBilled(keys: seq<string>)
    ensures SumBilledTo([], keys) == NO_COST == Billed([])
  {
    hide *;
    SumBilledToUnfold([], keys);
    BilledToNone("");
    if keys != [] {
      NothingBilled(keys[1..]);
      BilledToNone(keys[0]);
      PlusMove(NO_COST, NO_COST, NO_COST, NO_COST);
    }
  }

  lemma BilledToNone(key: string)
    ensures BilledTo([], key) == NO_COST == Billed([])
  {
    hide Plus;
    hide BilledKey;
  }

  lemma {:induction false} BilledKeyHasEvents(events: seq<SandboxSpanEvent>, i: nat)
    requires i < |events| && BilledKey(events[i]).Some?
    ensures BilledTo(events, BilledKey(events[i]).value).events > 0
  {
    if i < |events| - 1 { BilledKeyHasEvents(events[..|events| - 1], i); }
  }

  /** Nothing is lost or counted twice: however the result is iterated, its entries add up to the cost of
      all events that carry a key. */
  lemma JoinConserves(events: seq<SandboxSpanEvent>, joined: Joined, keys: seq<string>)
    requires IsJoin(events, joined) && Enumerates(keys, joined)
    ensures SumOver(joined, keys) == Billed(events)
  {
    SumOverIsSumBilledTo(events, joined, keys);
    forall i | 0 <= i < |events| && BilledKey(events[i]).Some? ensures BilledKey(events[i]).value in keys {
      BilledKeyHasEvents(events, i);
      assert JoinedAt(events, joined, BilledKey(events[i]).value);
    }
    SumBilledToAll(events, keys);
  }

  // ---------------------------------------------------------------- concatenation and order

  lemma {:induction false} BilledToConcat(a: seq<SandboxSpanEvent>, b: seq<SandboxSpanEvent>, key: string)
    ensures BilledTo(a + b, key) == Plus(BilledTo(a, key), BilledTo(b, key))
  {
    hide *;
    if b == [] {
      assert a + b == a;
      BilledToNone(key);
      PlusMove(BilledTo(a, key), NO_COST, NO_COST, NO_COST);
    } else {
      var front, last := b[..|b| - 1], b[|b| - 1];
      BilledToConcat(a, front, key);
      assert a + b == (a + front) + [last] && b == front + [last];
      Unfold(a + front, last, key);
      Unfold(front, last, key);
      PlusAssociates(BilledTo(a, key), BilledTo(front, key),
                     if BilledKey(last) == Some(key) then EventCost(last) else NO_COST);
    }
  }

  lemma PlusAssociates(a: Cost, b: Cost, c: Cost)
    ensures Plus(Plus(a, b), c) == Plus(a, Plus(b, c))
  {
  }

  function CostAt(joined: Joined, key: string): Cost {
    if key in joined then CostOf(joined[key]) else NO_COST
  }

  /** Key by key, adding where both have an entry. */
  function MergeJoined(a: Joined, b: Joined): Joined {
    map key | key in a.Keys + b.Keys :: Attribution(key, Plus(CostAt(a, key), CostAt(b, key)))
  }

  /** Joining two batches together is merging their joins. */
  lemma JoinOfConcatenation(a: seq<SandboxSpanEvent>, b: seq<SandboxSpanEvent>, m: Joined, n: Joined)
    requires IsJoin(a, m) && IsJoin(b, n)
    ensures IsJoin(a + b, MergeJoined(m, n))
  {
    hide BilledTo;
    forall key ensures JoinedAt(a + b, MergeJoined(m, n), key) {
      JoinOfConcatenationAt(a, b, m, n, key);
    }
  }

  lemma JoinOfConcatenationAt(a: seq<SandboxSpanEvent>, b: seq<SandboxSpanEvent>, m: Joined, n: Joined, key: string)
    requires JoinedAt(a, m, key) && JoinedAt(b, n, key)
    ensures JoinedAt(a + b, MergeJoined(m, n), key)
  {
    hide BilledTo;
    BilledToConcat(a, b, key);
    if key in m.Keys + n.Keys {
      MergedAt(m, n, key);
    } else {
      PlusMove(NO_COST, NO_COST, NO_COST, NO_COST);
    }
  }

  lemma MergedAt(m: Joined, n: Joined, key: string)
    requires key in m.Keys + n.Keys
    ensures key in MergeJoined(m, n)
    ensures MergeJoined(m, n)[key] == Attribution(key, Plus(CostAt(m, key), CostAt(n, key)))
  {
  }

  lemma PlusCommutes(a: Cost, b: Cost)
    ensures Plus(a, b) == Plus(b, a)
  {
  }

  /** Any event's cost can be taken out first. */
  lemma BilledToWithout(events: seq<SandboxSpanEvent>, i: nat, key: string)
    requires i < |events|
    ensures BilledTo(events, key) == Plus(BilledTo([events[i]], key), BilledTo(Without(events, i), key))
  {
    hide BilledTo;
    hide Plus;
    var a, e, b := events[..i], [events[i]], events[i + 1..];
    assert events == (a + e) + b && Without(events, i) == a + b;
    BilledToConcat(a + e, b, key);
    BilledToConcat(a, e, key);
    BilledToConcat(a, b, key);
    PlusCommutes(BilledTo(a, key), BilledTo(e, key));
    PlusAssociates(BilledTo(e, key), BilledTo(a, key), BilledTo(b, key));
  }

  lemma {:induction false} BilledToAnyOrder(a: seq<SandboxSpanEvent>, b: seq<SandboxSpanEvent>, key: string)
    requires multiset(a) == multiset(b)
    ensures BilledTo(a, key) == BilledTo(b, key)
    decreases |a|
  {
    hide *;
    SameBagSameLength(a, b);
    if a != [] {
      SameBagSameElements(a, b, a[0]);
      var i :| 0 <= i < |b| && b[i] == a[0];
      WithoutBag(a, 0);
      WithoutBag(b, i);
      BilledToAnyOrder(Without(a, 0), Without(b, i), key);
      BilledToWithout(a, 0, key);
      BilledToWithout(b, i, key);
    }
  }

  /** The order in which events arrive does not matter. */
  lemma JoinAnyOrder(a: seq<SandboxSpanEvent>, b: seq<SandboxSpanEvent>, joined: Joined)
    requires multiset(a) == multiset(b) && IsJoin(a, joined)
    ensures IsJoin(b, joined)
  {
    hide BilledTo;
    forall key ensures JoinedAt(b, joined, key) {
      assert JoinedAt(a, joined, key);
      BilledToAnyOrder(a, b, key);
    }
  }

  // ---------------------------------------------------------------- attaching a key

  function AttachIdempotencyKey(e: SandboxSpanEvent, parentKey: string): SandboxSpanEvent {
    e.(attributes := e.attributes[IDEMPOTENCY_ATTR := StrValue(parentKey)])
  }

  function AttachAll(events: seq<SandboxSpanEvent>, parentKey: string): (es: seq<SandboxSpanEvent>)
    ensures |es| == |events|
  {
    seq(|events|, i requires 0 <= i < |events| => AttachIdempotencyKey(events[i], parentKey))
  }

  /** The cost of every exit event, keyed or not. */
  function ExitCost(events: seq<SandboxSpanEvent>): Cost {
    if events == [] then NO_COST
    else
      var (front, last) := (events[..|events| - 1], events[|events| - 1]);
      Plus(ExitCost(front), if last.kind == SandboxExit then EventCost(last) else NO_COST)
  }

  lemma AttachedEvent(e: SandboxSpanEvent, parentKey: string)
    ensures var a := AttachIdempotencyKey(e, parentKey);
            && BilledKey(a) == (if e.kind == SandboxExit then Some(parentKey) else None)
            && EventCost(a) == EventCost(e)
  {
    assert OVERHEAD_MS_ATTR[0] != IDEMPOTENCY_ATTR[0] && OVERHEAD_USD_ATTR[0] != IDEMPOTENCY_ATTR[0];
  }

  lemma ExitCostUnfold(events: seq<SandboxSpanEvent>, e: SandboxSpanEvent)
    ensures ExitCost(events + [e]) == Plus(ExitCost(events), if e.kind == SandboxExit then EventCost(e) else NO_COST)
  {
    hide EventCost;
    hide Plus;
    assert (events + [e])[..|events|] == events;
  }

  lemma AttachAllUnfold(events: seq<SandboxSpanEvent>, e: SandboxSpanEvent, parentKey: string)
    ensures AttachAll(events + [e], parentKey) == AttachAll(events, parentKey) + [AttachIdempotencyKey(e, parentKey)]
  {
    hide AttachIdempotencyKey;
  }

  lemma {:induction false} AttachedCost(events: seq<SandboxSpanEvent>, parentKey: string, key: string)
    ensures BilledTo(AttachAll(events, parentKey), key) == if key == parentKey then ExitCost(events) else NO_COST
  {
    hide *;
    if events == [] {
      assert AttachAll(events, parentKey) == [];
      BilledToNone(key);
      AttachedNone();
    } else {
      var front, last := events[..|events| - 1], events[|events| - 1];
      assert events == front + [last];
      AttachedCost(front, parentKey, key);
      AttachedEvent(last, parentKey);
      AttachAllUnfold(front, last, parentKey);
      ExitCostUnfold(front, last);
      Unfold(AttachAll(front, parentKey), AttachIdempotencyKey(last, parentKey), key);
      PlusMove(NO_COST, NO_COST, NO_COST, NO_COST);
    }
  }

  lemma AttachedNone()
    ensures ExitCost([]) == NO_COST
  {
    hide EventCost;
  }

  /** After the parent's key is attached to a batch, whatever keys its events had, the join has that one
      entry, holding the cost of every exit event; it is empty when there is none. */
  lemma AttachedBatchHasOneEntry(events: seq<SandboxSpanEvent>, parentKey: string, joined: Joined)
    requires IsJoin(AttachAll(events, parentKey), joined)
    ensures joined == if ExitCost(events).events == 0 then map[]
                      else map[parentKey := Attribution(parentKey, ExitCost(events))]
  {
    hide BilledTo;
    hide ExitCost;
    forall key ensures key in joined ==> key == parentKey {
      assert JoinedAt(AttachAll(events, parentKey), joined, key);
      AttachedCost(events, parentKey, key);
    }
    assert JoinedAt(AttachAll(events, parentKey), joined, parentKey);
    AttachedCost(events, parentKey, parentKey);
  }

  // ---------------------------------------------------------------- what an event costs

  predicate Has(e: SandboxSpanEvent, name: string, v: AttributeValue) {
    name in e.attributes && e.attributes[name] == v
  }

  predicate HasNoNumber(e: SandboxSpanEvent, name: string) {
    name in e.attributes ==> e.attributes[name].StrValue?
  }

  /** One exit event under a string key gives one entry.  Milliseconds are read off an integer or a boolean,
      dollars off an integer, a float or a boolean; anything else counts as zero. */
  lemma JoinOfOneExit(e: SandboxSpanEvent, k: string, joined: Joined)
    requires IsJoin([e], joined) && e.kind == SandboxExit && Has(e, "idempotency_key", StrValue(k))
    ensures joined.Keys == {k} && joined[k].idempotencyKey == k && joined[k].contributingEventCount == 1
    ensures var ms := joined[k].totalTierOverheadMs;
            && (forall n | Has(e, "sandbox.cost.tier_overhead_ms", IntValue(n)) :: ms == n)
            && (Has(e, "sandbox.cost.tier_overhead_ms", BoolValue(true)) ==> ms == 1)
            && (Has(e, "sandbox.cost.tier_overhead_ms", BoolValue(false)) ==> ms == 0)
            && (forall x | Has(e, "sandbox.cost.tier_overhead_ms", FloatValue(x)) :: ms == 0)
            && (HasNoNumber(e, "sandbox.cost.tier_overhead_ms") ==> ms == 0)
    ensures var usd := joined[k].totalTierOverheadUsd;
            && (forall n: int | Has(e, "sandbox.cost.tier_overhead_usd", IntValue(n)) :: usd == n as real)
            && (forall x | Has(e, "sandbox.cost.tier_overhead_usd", FloatValue(x)) :: usd == x)
            && (Has(e, "sandbox.cost.tier_overhead_usd", BoolValue(true)) ==> usd == 1.0)
            && (Has(e, "sandbox.cost.tier_overhead_usd", BoolValue(false)) ==> usd == 0.0)
            && (HasNoNumber(e, "sandbox.cost.tier_overhead_usd") ==> usd == 0.0)
  {
    JoinOfOneAt(e, joined, k);
    forall key | key in joined ensures key == k { JoinOfOneAt(e, joined, key); }
    hide *;
    CostsAre(e);
  }

  /** Any other event gives none. */
  lemma JoinOfOneOther(e: SandboxSpanEvent, joined: Joined)
    requires IsJoin([e], joined)
    requires e.kind != SandboxExit || forall k :: !Has(e, "idempotency_key", StrValue(k))
    ensures joined == map[]
  {
    assert BilledKey(e) == None by {
      match Get(e, IDEMPOTENCY_ATTR)
      case Some(StrValue(k)) => assert e.kind == SandboxExit ==> Has(e, "idempotency_key", StrValue(k));
      case _ =>
    }
    forall key ensures key !in joined { JoinOfOneAt(e, joined, key); }
  }

  lemma JoinOfOneAt(e: SandboxSpanEvent, joined: Joined, key: string)
    requires IsJoin([e], joined)
    ensures key in joined <==> BilledKey(e) == Some(key)
    ensures key in joined ==> joined[key] == CostAttribution(key, OverheadMs(e), OverheadUsd(e), 1)
  {
    hide BilledTo;
    hide BilledKey;
    assert JoinedAt([e], joined, key);
    assert [] + [e] == [e];
    Unfold([], e, key);
    BilledToNone(key);
  }

  lemma CostsAre(e: SandboxSpanEvent)
    ensures forall n | Has(e, "sandbox.cost.tier_overhead_ms", IntValue(n)) :: OverheadMs(e) == n
    ensures Has(e, "sandbox.cost.tier_overhead_ms", BoolValue(true)) ==> OverheadMs(e) == 1
    ensures Has(e, "sandbox.cost.tier_overhead_ms", BoolValue(false)) ==> OverheadMs(e) == 0
    ensures forall x | Has(e, "sandbox.cost.tier_overhead_ms", FloatValue(x)) :: OverheadMs(e) == 0
    ensures HasNoNumber(e, "sandbox.cost.tier_overhead_ms") ==> OverheadMs(e) == 0
    ensures forall n: int | Has(e, "sandbox.cost.tier_overhead_usd", IntValue(n)) :: OverheadUsd(e) == n as real
    ensures forall x | Has(e, "sandbox.cost.tier_overhead_usd", FloatValue(x)) :: OverheadUsd(e) == x
    ensures Has(e, "sandbox.cost.tier_overhead_usd", BoolValue(true)) ==> OverheadUsd(e) == 1.0
    ensures Has(e, "sandbox.cost.tier_overhead_usd", BoolValue(false)) ==> OverheadUsd(e) == 0.0
    ensures HasNoNumber(e, "sandbox.cost.tier_overhead_usd") ==> OverheadUsd(e) == 0.0
  {
  }

  /** Two batches joined together: a key's entry is the entry of the batch that has it, or adds the two up.
      No events give no entry. */
  lemma JoinAddsUp(a: seq<SandboxSpanEvent>, b: seq<SandboxSpanEvent>, m: Joined, n: Joined, joined: Joined)
    requires IsJoin(a, m) && IsJoin(b, n) && IsJoin(a + b, joined)
    ensures a == [] ==> m == map[]
    ensures joined.Keys == m.Keys + n.Keys
    ensures forall k | k in joined && k !in n :: joined[k] == m[k]
    ensures forall k | k in joined && k !in m :: joined[k] == n[k]
    ensures forall k | k in m && k in n ::
              joined[k] == CostAttribution(
                k, m[k].totalTierOverheadMs + n[k].totalTierOverheadMs,
                m[k].totalTierOverheadUsd + n[k].totalTierOverheadUsd,
                m[k].contributingEventCount + n[k].contributingEventCount)
  {
    JoinOfConcatenation(a, b, m, n);
    JoinUnique(a + b, joined, MergeJoined(m, n));
    forall k | k in m ensures a != [] && m[k].idempotencyKey == k { EntryNamesItsKey(a, m, k); }
    forall k | k in n ensures n[k].idempotencyKey == k { EntryNamesItsKey(b, n, k); }
    hide IsJoin;
  }

  /** Attaching a key changes that attribute and nothing else. */
  lemma AttachKeepsTheRest(e: SandboxSpanEvent, k: string)
    ensures var a := AttachIdempotencyKey(e, k);
            && a.kind == e.kind && a.parentSpanId == e.parentSpanId && a.timestamp == e.timestamp
            && Has(a, "idempotency_key", StrValue(k))
            && a.attributes.Keys == e.attributes.Keys + {"idempotency_key"}
            && forall name | name in e.attributes && name != "idempotency_key" :: Has(a, name, e.attributes[name])
  {
  }

  lemma EntryNamesItsKey(events: seq<SandboxSpanEvent>, joined: Joined, key: string)
    requires IsJoin(events, joined) && key in joined
    ensures events != [] && joined[key].idempotencyKey == key
  {
    assert JoinedAt(events, joined, key);
    BilledToNone(key);
  }
}
