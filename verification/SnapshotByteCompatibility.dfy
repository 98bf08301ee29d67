/** Exactly when a snapshot hashes to the bytes it had before the additive fields existed, and
    what the strip leaves alone on arbitrary JSON. */
module SnapshotByteCompatibility {
  import opened Wrappers
  import opened JsonText
  import opened PauseSnapshots
  import opened SnapshotCanonicalForm
  import opened SnapshotCoverage

  // ---------------------------------------------------------------- the older schema

  /** Carrier form under the schema without `synthesis_step_id`, `effect_fence_paused_branches`
      and the nested `orchestrator_effect_fence_resume`. */
  function LegacyFanOut(f: FanOutResume, outermost: bool): Json
    decreases f, 1
  {
    JObject(FanOutBase(f)
            + KidsField(if outermost && f.pausedChildren == [] then None else Some(LegacyChildren(f.pausedChildren))))
  }

  function LegacyPeer(p: PeerFanOutResume): Json {
    JObject(PeerBase(p))
  }

  function LegacyChildren(cs: seq<PausedChild>): (js: seq<Json>)
    ensures |js| == |cs|
    decreases cs, 0
  {
    if cs == [] then [] else [LegacyChild(cs[0])] + LegacyChildren(cs[1..])
  }

  function LegacyChild(c: PausedChild): Json
    decreases c, 1
  {
    JObject(map["branch_index" := JInt(c.branchIndex), "step_id" := JString(c.stepId),
                "child_snapshot" := LegacySnapshot(c.childSnapshot)])
  }

  function LegacySnapshot(s: PauseSnapshot): Json
    decreases s, 1
  {
    var r := s.carriers;
    JObject(SnapshotHead(s)
            + map["fan_out_resume" := if r.fanOut.None? then JNull else LegacyFanOut(r.fanOut.value, false)]
            + map["peer_fan_out_resume" := if r.peerFanOut.None? then JNull else LegacyPeer(r.peerFanOut.value)])
  }

  function LegacyCanonical(c: Covered): Json {
    JObject(WithFields(CoveredBase(c), CARRIER_KEYS, LegacyFields(c.carriers)))
  }

  // ---------------------------------------------------------------- every additive field at its default

  predicate FanOutAtDefaults(f: FanOutResume)
    decreases f, 1
  {
    f.synthesisStepId.None? && f.fencedBranches == [] && ChildrenAtDefaults(f.pausedChildren)
  }

  predicate PeerAtDefaults(p: PeerFanOutResume) {
    p.synthesisStepId.None? && p.fencedBranches == []
  }

  predicate ChildrenAtDefaults(cs: seq<PausedChild>)
    decreases cs, 0
  {
    cs == [] || (SnapshotAtDefaults(cs[0].childSnapshot) && ChildrenAtDefaults(cs[1..]))
  }

  predicate SnapshotAtDefaults(s: PauseSnapshot)
    decreases s, 1
  {
    CarriersAtDefaults(s.carriers)
  }

  predicate CarriersAtDefaults(r: Carriers)
    decreases r, 1
  {
    r.orchestratorFence.None?
    && (r.fanOut.Some? ==> FanOutAtDefaults(r.fanOut.value))
    && (r.peerFanOut.Some? ==> PeerAtDefaults(r.peerFanOut.value))
  }

  lemma PeerLegacyIff(p: PeerFanOutResume)
    ensures CanonicalPeer(p) == LegacyPeer(p) <==> PeerAtDefaults(p)
  {
    hide MapSeq;
    var b := PeerBase(p);
    assert b.Keys !! ADDITIVE_KEYS;
    assert b == b + KidsField(None) && AdditiveForm(None, []) == map[];
    assert b == b + KidsField(None) + AdditiveForm(None, []);
    if CanonicalPeer(p) == LegacyPeer(p) {
      AdditiveInjective(b, None, p.synthesisStepId, p.fencedBranches, b, None, None, []);
    }
  }

  lemma {:induction false} FanOutLegacyIff(f: FanOutResume, outermost: bool)
    ensures CanonicalFanOut(f, outermost) == LegacyFanOut(f, outermost) <==> FanOutAtDefaults(f)
    decreases f, 1
  {
    hide FanOutBase;
    hide CanonicalChildren;
    hide LegacyChildren;
    hide ChildrenAtDefaults;
    var b, drop := FanOutBase(f), outermost && f.pausedChildren == [];
    FanOutBaseKeys(f);
    ChildrenLegacyIff(f.pausedChildren);
    EmptyChildren();
    var ours := if drop then None else Some(CanonicalChildren(f.pausedChildren));
    var legacy := if drop then None else Some(LegacyChildren(f.pausedChildren));
    var l := b + KidsField(legacy);
    assert AdditiveForm(None, []) == map[] && l == l + AdditiveForm(None, []);
    if CanonicalFanOut(f, outermost) == LegacyFanOut(f, outermost) {
      AdditiveInjective(b, ours, f.synthesisStepId, f.fencedBranches, b, legacy, None, []);
    }
  }

  lemma EmptyChildren()
    ensures ChildrenAtDefaults([])
  {
  }

  lemma {:induction false} ChildrenLegacyIff(cs: seq<PausedChild>)
    ensures CanonicalChildren(cs) == LegacyChildren(cs) <==> ChildrenAtDefaults(cs)
    decreases cs, 0
  {
    if cs != [] {
      SnapshotLegacyIff(cs[0].childSnapshot);
      ChildLegacy(cs[0]);
      ChildrenLegacyIff(cs[1..]);
      var xs, ys := CanonicalChildren(cs), LegacyChildren(cs);
      assert xs[0] == CanonicalChild(cs[0]) && ys[0] == LegacyChild(cs[0]);
      assert xs[1..] == CanonicalChildren(cs[1..]) && ys[1..] == LegacyChildren(cs[1..]);
      assert xs == [xs[0]] + xs[1..] && ys == [ys[0]] + ys[1..];
    }
  }

  lemma ChildLegacy(c: PausedChild)
    ensures CanonicalChild(c) == LegacyChild(c)
            <==> CanonicalSnapshot(c.childSnapshot) == LegacySnapshot(c.childSnapshot)
  {
    hide CanonicalSnapshot;
    hide LegacySnapshot;
    assert CanonicalChild(c).members["child_snapshot"] == CanonicalSnapshot(c.childSnapshot);
    assert LegacyChild(c).members["child_snapshot"] == LegacySnapshot(c.childSnapshot);
  }

  lemma {:induction false} SnapshotLegacyIff(s: PauseSnapshot)
    ensures CanonicalSnapshot(s) == LegacySnapshot(s) <==> SnapshotAtDefaults(s)
    decreases s, 1
  {
    hide SnapshotHead;
    hide CanonicalFanOut;
    hide CanonicalPeer;
    hide LegacyFanOut;
    hide LegacyPeer;
    hide FanOutAtDefaults;
    hide PeerAtDefaults;
    var r, h := s.carriers, SnapshotHead(s);
    SnapshotHeadKeys(s);
    var f1 := if r.fanOut.None? then JNull else CanonicalFanOut(r.fanOut.value, false);
    var p1 := if r.peerFanOut.None? then JNull else CanonicalPeer(r.peerFanOut.value);
    var f2 := if r.fanOut.None? then JNull else LegacyFanOut(r.fanOut.value, false);
    var p2 := if r.peerFanOut.None? then JNull else LegacyPeer(r.peerFanOut.value);
    if r.fanOut.Some? { FanOutLegacyIff(r.fanOut.value, false); }
    if r.peerFanOut.Some? { PeerLegacyIff(r.peerFanOut.value); }
    var l := h + map["fan_out_resume" := f2] + map["peer_fan_out_resume" := p2];
    assert l == l + Opt("orchestrator_effect_fence_resume", None);
    if CanonicalSnapshot(s) == LegacySnapshot(s) {
      SnapshotPartsInjective(h, f1, p1, OrchestratorField(r.orchestratorFence), h, f2, p2, None);
    }
  }

  /** A snapshot keeps the bytes it was hashed under before the additive fields existed exactly when
      every such field, along the whole path of nested carriers, is at its default. */
  lemma OldBytesKeptIff(c: Covered)
    ensures CanonicalText(c) == Print(LegacyCanonical(c)) <==> CarriersAtDefaults(c.carriers)
  {
    hide WithFields;
    hide Print;
    hide CoveredBase;
    hide CarriersAtDefaults;
    LegacyFieldsIff(c.carriers);
    if CanonicalText(c) == Print(LegacyCanonical(c)) {
      PrintInjective(Canonical(c), LegacyCanonical(c));
      CoveredBaseKeys(c);
      CarrierKeysDistinct();
      WithFieldsInjective(CoveredBase(c), CoveredBase(c), CARRIER_KEYS,
                          CarrierFields(c.carriers), LegacyFields(c.carriers));
    }
  }

  // ---------------------------------------------------------------- the older form is the form of the reset snapshot

  function ResetFanOut(f: FanOutResume): FanOutResume
    decreases f, 1
  {
    f.(synthesisStepId := None, fencedBranches := [], pausedChildren := ResetChildren(f.pausedChildren))
  }

  function ResetPeer(p: PeerFanOutResume): PeerFanOutResume {
    p.(synthesisStepId := None, fencedBranches := [])
  }

  function ResetChildren(cs: seq<PausedChild>): (ds: seq<PausedChild>)
    ensures |ds| == |cs|
    decreases cs, 0
  {
    if cs == [] then [] else [ResetChild(cs[0])] + ResetChildren(cs[1..])
  }

  function ResetChild(c: PausedChild): PausedChild
    decreases c, 1
  {
    c.(childSnapshot := ResetSnapshot(c.childSnapshot))
  }

  /** Every additive field at its default, along the whole path of nested carriers. */
  function ResetSnapshot(s: PauseSnapshot): PauseSnapshot
    decreases s, 1
  {
    s.(carriers := ResetCarriers(s.carriers))
  }

  function ResetCarriers(r: Carriers): Carriers
    decreases r, 1
  {
    r.(fanOut := if r.fanOut.None? then None else Some(ResetFanOut(r.fanOut.value)),
       peerFanOut := if r.peerFanOut.None? then None else Some(ResetPeer(r.peerFanOut.value)),
       orchestratorFence := None)
  }

  lemma {:induction false} FanOutReset(f: FanOutResume, outermost: bool)
    ensures CanonicalFanOut(ResetFanOut(f), outermost) == LegacyFanOut(f, outermost)
    decreases f, 1
  {
    hide CanonicalChildren;
    hide LegacyChildren;
    hide FanOutBase;
    hide ResetChildren;
    ChildrenReset(f.pausedChildren);
    assert FanOutBase(ResetFanOut(f)) == FanOutBase(f) by { BaseReset(f); }
    assert AdditiveForm(None, []) == map[];
    assert CanonicalFanOut(ResetFanOut(f), outermost).members == LegacyFanOut(f, outermost).members;
  }

  lemma BaseReset(f: FanOutResume)
    ensures FanOutBase(ResetFanOut(f)) == FanOutBase(f)
  {
    hide ResetChildren;
    hide MapSeq;
  }

  lemma PeerReset(p: PeerFanOutResume)
    ensures CanonicalPeer(ResetPeer(p)) == LegacyPeer(p)
  {
    hide MapSeq;
    assert AdditiveForm(None, []) == map[];
    assert CanonicalPeer(ResetPeer(p)).members == LegacyPeer(p).members;
  }

  lemma {:induction false} ChildrenReset(cs: seq<PausedChild>)
    ensures CanonicalChildren(ResetChildren(cs)) == LegacyChildren(cs)
    decreases cs, 0
  {
    hide *;
    ChildrenOnce(cs);
    if cs != [] {
      ChildReset(cs[0]);
      ChildrenReset(cs[1..]);
    }
  }

  lemma ChildrenOnce(cs: seq<PausedChild>)
    ensures cs == [] ==> CanonicalChildren(ResetChildren(cs)) == [] && LegacyChildren(cs) == []
    ensures cs != [] ==>
              && CanonicalChildren(ResetChildren(cs))
                 == [CanonicalChild(ResetChild(cs[0]))] + CanonicalChildren(ResetChildren(cs[1..]))
              && LegacyChildren(cs) == [LegacyChild(cs[0])] + LegacyChildren(cs[1..])
  {
    hide CanonicalChild;
    hide LegacyChild;
    hide ResetChild;
    if cs != [] {
      var ds := ResetChildren(cs);
      assert ds[0] == ResetChild(cs[0]) && ds[1..] == ResetChildren(cs[1..]);
    }
  }

  lemma {:induction false} ChildReset(c: PausedChild)
    ensures CanonicalChild(ResetChild(c)) == LegacyChild(c)
    decreases c, 1
  {
    hide CanonicalSnapshot;
    hide LegacySnapshot;
    hide ResetSnapshot;
    SnapshotReset(c.childSnapshot);
  }

  lemma {:induction false} SnapshotReset(s: PauseSnapshot)
    ensures CanonicalSnapshot(ResetSnapshot(s)) == LegacySnapshot(s)
    decreases s, 1
  {
    hide CanonicalFanOut;
    hide CanonicalPeer;
    hide LegacyFanOut;
    hide LegacyPeer;
    hide SnapshotHead;
    hide ResetFanOut;
    hide ResetPeer;
    var r := s.carriers;
    if r.fanOut.Some? { FanOutReset(r.fanOut.value, false); }
    if r.peerFanOut.Some? { PeerReset(r.peerFanOut.value); }
    HeadReset(s);
    assert CanonicalSnapshot(ResetSnapshot(s)).members == LegacySnapshot(s).members;
  }

  lemma HeadReset(s: PauseSnapshot)
    ensures SnapshotHead(ResetSnapshot(s)) == SnapshotHead(s)
  {
    hide DumpSummary;
    hide DumpHandoff;
    hide DumpEvaluatorOptimizer;
    hide DumpEffectFence;
    hide ResetFanOut;
    hide ResetPeer;
  }

  /** The bytes of the older schema are those the present one gives the snapshot without its additive
      fields. */
  lemma LegacyIsReset(c: Covered)
    ensures Print(LegacyCanonical(c)) == CanonicalText(c.(carriers := ResetCarriers(c.carriers)))
  {
    hide WithFields;
    hide Print;
    hide CanonicalFanOut;
    hide CanonicalPeer;
    hide LegacyFanOut;
    hide LegacyPeer;
    hide ResetFanOut;
    hide ResetPeer;
    var r := c.carriers;
    if r.fanOut.Some? { FanOutReset(r.fanOut.value, true); }
    if r.peerFanOut.Some? { PeerReset(r.peerFanOut.value); }
    assert CarrierFields(ResetCarriers(r)) == LegacyFields(r);
    assert CoveredBase(c.(carriers := ResetCarriers(r))) == CoveredBase(c);
  }

  function LegacyFields(r: Carriers): (fields: seq<Option<Json>>)
    ensures |fields| == |CARRIER_KEYS|
  {
    [if r.fanOut.None? then None else Some(LegacyFanOut(r.fanOut.value, true)),
     if r.peerFanOut.None? then None else Some(LegacyPeer(r.peerFanOut.value)),
     HandoffField(r), LoopField(r), FenceField(r), None]
  }

  lemma LegacyFieldsIff(r: Carriers)
    ensures CarrierFields(r) == LegacyFields(r) <==> CarriersAtDefaults(r)
  {
    hide FanOutField;
    hide PeerField;
    hide OrchestratorField;
    hide LegacyFanOut;
    hide LegacyPeer;
    hide CarriersAtDefaults;
    var fan := if r.fanOut.None? then None else Some(LegacyFanOut(r.fanOut.value, true));
    var peer := if r.peerFanOut.None? then None else Some(LegacyPeer(r.peerFanOut.value));
    assert LegacyFields(r) == [fan, peer, HandoffField(r), LoopField(r), FenceField(r), None];
    SixFieldsAgree(FanOutField(r), PeerField(r), HandoffField(r), LoopField(r), FenceField(r),
                   OrchestratorField(r.orchestratorFence), fan, peer, None);
    LegacyEntriesIff(r);
  }

  lemma SixFieldsAgree(a: Option<Json>, b: Option<Json>, c: Option<Json>, d: Option<Json>, e: Option<Json>,
                       f: Option<Json>, x: Option<Json>, y: Option<Json>, z: Option<Json>)
    ensures [a, b, c, d, e, f] == [x, y, c, d, e, z] <==> a == x && b == y && f == z
  {
    var xs, ys := [a, b, c, d, e, f], [x, y, c, d, e, z];
    if xs == ys { assert xs[0] == ys[0] && xs[1] == ys[1] && xs[5] == ys[5]; }
  }

  lemma LegacyEntriesIff(r: Carriers)
    ensures (&& FanOutField(r) == (if r.fanOut.None? then None else Some(LegacyFanOut(r.fanOut.value, true)))
             && PeerField(r) == (if r.peerFanOut.None? then None else Some(LegacyPeer(r.peerFanOut.value)))
             && OrchestratorField(r.orchestratorFence) == None)
            <==> CarriersAtDefaults(r)
  {
    hide CanonicalFanOut;
    hide CanonicalPeer;
    hide LegacyFanOut;
    hide LegacyPeer;
    hide FanOutAtDefaults;
    hide PeerAtDefaults;
    if r.fanOut.Some? { FanOutLegacyIff(r.fanOut.value, true); }
    if r.peerFanOut.Some? { PeerLegacyIff(r.peerFanOut.value); }
  }

  /** An empty `paused_child_branches` disappears from the outermost carrier, where it is popped before the
      strip, and only from there: a nested carrier is stripped alone and always keeps the field. */
  lemma EmptyPausedChildrenDroppedOutermostOnly(f: FanOutResume)
    ensures var popped := JObject(PopIfFalsy(DumpFanOut(f).members, "paused_child_branches"));
            && StripCarrier(popped).JObject? && StripCarrier(DumpFanOut(f)).JObject?
            && ("paused_child_branches" in StripCarrier(popped).members <==> f.pausedChildren != [])
            && "paused_child_branches" in StripCarrier(DumpFanOut(f)).members
  {
    hide StripCarrier;
    hide PopIfFalsy;
    hide DumpFanOut;
    hide CanonicalFanOut;
    StripFanOutDump(f);
    FormKeepsPausedChildren(f, true);
    FormKeepsPausedChildren(f, false);
  }

  lemma FormKeepsPausedChildren(f: FanOutResume, outermost: bool)
    ensures CanonicalFanOut(f, outermost).JObject?
    ensures "paused_child_branches" in CanonicalFanOut(f, outermost).members
            <==> !outermost || f.pausedChildren != []
  {
    hide CanonicalChildren;
    FanOutBaseKeys(f);
    var kc, ks, ke := "paused_child_branches", "synthesis_step_id", "effect_fence_paused_branches";
    assert kc != ks && kc != ke;
    assert kc !in AdditiveForm(f.synthesisStepId, f.fencedBranches);
  }

  // ---------------------------------------------------------------- the strip on arbitrary JSON

  /** On any object the strip removes at most its own null `synthesis_step_id` and empty
      `effect_fence_paused_branches`, and rewrites nothing but `paused_child_branches`: user payloads under
      every other key stay covered, whatever keys they hold themselves. */
  lemma StripTouchesOnlyCarrierFields(j: Json)
    requires j.JObject?
    ensures StripCarrier(j).JObject?
    ensures StripCarrier(j).members.Keys
            == j.members.Keys
               - (set k | k == "synthesis_step_id" && k in j.members && j.members[k].JNull?)
               - (set k | k == "effect_fence_paused_branches" && k in j.members && Falsy(j.members[k]))
    ensures forall k | k in StripCarrier(j).members && k != "paused_child_branches" ::
              StripCarrier(j).members[k] == j.members[k]
  {
    hide StripChildren;
    assert "synthesis_step_id" != "effect_fence_paused_branches";
    assert "paused_child_branches" != "effect_fence_paused_branches" && "paused_child_branches" != "synthesis_step_id";
  }

  /** What becomes of a paused child: the same entries, and in its snapshot nothing changes but the two
      fan-out carriers, each stripped, and a null `orchestrator_effect_fence_resume`, which goes.  Anything
      that does not have this shape stays as it is. */
  lemma StripReachesChildren(j: Json, i: nat)
    requires j.JObject? && "paused_child_branches" in j.members && j.members["paused_child_branches"].JArray?
    requires i < |j.members["paused_child_branches"].items|
    ensures var out := StripCarrier(j).members;
            && "paused_child_branches" in out && out["paused_child_branches"].JArray?
            && |out["paused_child_branches"].items| == |j.members["paused_child_branches"].items|
            && IsStrippedChild(j.members["paused_child_branches"].items[i], out["paused_child_branches"].items[i])
  {
    hide *;
    var items := j.members["paused_child_branches"].items;
    StrippedListIs(j, items);
    StripChildrenAt(items, i);
    StrippedChildIs(items[i]);
  }

  lemma StrippedListIs(j: Json, items: seq<Json>)
    requires j.JObject? && "paused_child_branches" in j.members && j.members["paused_child_branches"] == JArray(items)
    ensures StripCarrier(j).JObject? && "paused_child_branches" in StripCarrier(j).members
    ensures StripCarrier(j).members["paused_child_branches"] == JArray(StripChildren(items))
  {
    hide StripChildren;
    assert "paused_child_branches" != "effect_fence_paused_branches" && "paused_child_branches" != "synthesis_step_id";
  }

  ghost predicate IsStrippedChild(c: Json, d: Json) {
    if c.JObject? && "child_snapshot" in c.members && c.members["child_snapshot"].JObject? then
      && d.JObject? && d.members.Keys == c.members.Keys && d.members["child_snapshot"].JObject?
      && (forall k | k in c.members && k != "child_snapshot" :: d.members[k] == c.members[k])
      && IsStrippedSnapshot(c.members["child_snapshot"].members, d.members["child_snapshot"].members)
    else d == c
  }

  ghost predicate IsStrippedSnapshot(m: map<string, Json>, n: map<string, Json>) {
    && (forall k :: k in n <==> k in m && !(k == "orchestrator_effect_fence_resume" && m[k].JNull?))
    && (forall k | k in n :: n[k] == if k == "fan_out_resume" || k == "peer_fan_out_resume" then StripCarrier(m[k])
                                     else m[k])
  }

  lemma {:induction false} StripChildrenAt(items: seq<Json>, i: nat)
    requires i < |items|
    ensures StripChildren(items)[i] == StripChild(items[i])
  {
    hide StripChild;
    if i > 0 { StripChildrenAt(items[1..], i - 1); }
  }

  lemma StrippedChildIs(c: Json)
    ensures IsStrippedChild(c, StripChild(c))
  {
    if c.JObject? && "child_snapshot" in c.members && c.members["child_snapshot"].JObject? {
      StrippedSnapshotIs(c.members["child_snapshot"]);
    }
    hide StripSnapshot;
    hide IsStrippedSnapshot;
  }

  lemma StrippedSnapshotIs(s: Json)
    requires s.JObject?
    ensures StripSnapshot(s).JObject? && IsStrippedSnapshot(s.members, StripSnapshot(s).members)
  {
    hide StripCarrier;
    var kf, kp, ko := "fan_out_resume", "peer_fan_out_resume", "orchestrator_effect_fence_resume";
    assert kf != kp && kf != ko && kp != ko;
  }

  /** Stripping twice strips no more than stripping once, on any JSON. */
  lemma {:induction false} StripIdempotent(j: Json)
    ensures StripCarrier(StripCarrier(j)) == StripCarrier(j)
    decreases j, 1
  {
    hide StripChildren;
    if j.JObject? {
      var kc, ks, ke := "paused_child_branches", "synthesis_step_id", "effect_fence_paused_branches";
      assert kc != ks && kc != ke && ks != ke;
      var m := PopIfFalsy(PopIfNull(j.members, ks), ke);
      if kc in m && m[kc].JArray? {
        assert kc in j.members;
        StripChildrenIdempotent(j.members[kc].items);
        var once := StripCarrier(j);
        assert once.members == m[kc := JArray(StripChildren(j.members[kc].items))];
        assert PopIfFalsy(PopIfNull(once.members, ks), ke) == once.members;
        assert StripCarrier(once).members == once.members;
      }
    }
  }

  lemma {:induction false} StripChildrenIdempotent(items: seq<Json>)
    ensures StripChildren(StripChildren(items)) == StripChildren(items)
    decreases items, 0
  {
    if items != [] {
      StripChildIdempotent(items[0]);
      StripChildrenIdempotent(items[1..]);
      assert StripChildren(items)[1..] == StripChildren(items[1..]);
    }
  }

  lemma {:induction false} StripChildIdempotent(j: Json)
    ensures StripChild(StripChild(j)) == StripChild(j)
    decreases j, 1
  {
    if j.JObject? && "child_snapshot" in j.members && j.members["child_snapshot"].JObject? {
      StripSnapshotIdempotent(j.members["child_snapshot"]);
      assert StripChild(StripChild(j)).members == StripChild(j).members;
    }
  }

  lemma {:induction false} StripSnapshotIdempotent(j: Json)
    requires j.JObject?
    ensures StripSnapshot(StripSnapshot(j)) == StripSnapshot(j)
    decreases j, 1
  {
    hide StripCarrier;
    var kf, kp, ko := "fan_out_resume", "peer_fan_out_resume", "orchestrator_effect_fence_resume";
    assert kf != kp && kf != ko && kp != ko;
    if kf in j.members { StripIdempotent(j.members[kf]); }
    if kp in j.members { StripIdempotent(j.members[kp]); }
    assert StripSnapshot(StripSnapshot(j)).members == StripSnapshot(j).members;
  }
}
