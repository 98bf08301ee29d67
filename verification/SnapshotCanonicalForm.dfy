/** The canonical form under `snapshot_hash`, field by field, and that dumping, popping and stripping a
    snapshot's carriers, at every depth, reaches it. */
module SnapshotCanonicalForm {
  import opened Wrappers
  import opened JsonText
  import opened PauseSnapshots
  import opened SnapshotStripInPlace

  // ---------------------------------------------------------------- the form, field by field

  /** A field written only when it holds something. */
  function Opt(k: string, o: Option<Json>): map<string, Json> {
    if o.None? then map[] else map[k := o.value]
  }

  function SynthesisField(o: Option<string>): Option<Json> {
    if o.None? then None else Some(JString(o.value))
  }

  function FencedField(bs: seq<FencedBranch>): Option<Json> {
    if bs == [] then None else Some(JArray(MapSeq(DumpFenced, bs)))
  }

  function OrchestratorField(o: Option<OrchestratorFenceResume>): Option<Json> {
    if o.None? then None else Some(DumpOrchestratorFence(o.value))
  }

  function KidsField(children: Option<seq<Json>>): map<string, Json> {
    Opt("paused_child_branches", if children.None? then None else Some(JArray(children.value)))
  }

  /** The shared additive fields as hashed: each present only when not at its default. */
  function AdditiveForm(synthesisStepId: Option<string>, fenced: seq<FencedBranch>): map<string, Json> {
    Opt("synthesis_step_id", SynthesisField(synthesisStepId))
    + Opt("effect_fence_paused_branches", FencedField(fenced))
  }

  function CanonicalFanOut(f: FanOutResume, outermost: bool): Json
    decreases f, 1
  {
    JObject(FanOutBase(f)
            + KidsField(if outermost && f.pausedChildren == [] then None else Some(CanonicalChildren(f.pausedChildren)))
            + AdditiveForm(f.synthesisStepId, f.fencedBranches))
  }

  function CanonicalPeer(p: PeerFanOutResume): Json {
    JObject(PeerBase(p) + AdditiveForm(p.synthesisStepId, p.fencedBranches))
  }

  function CanonicalChildren(cs: seq<PausedChild>): (js: seq<Json>)
    ensures |js| == |cs|
    decreases cs, 0
  {
    if cs == [] then [] else [CanonicalChild(cs[0])] + CanonicalChildren(cs[1..])
  }

  function CanonicalChild(c: PausedChild): Json
    decreases c, 1
  {
    JObject(map["branch_index" := JInt(c.branchIndex), "step_id" := JString(c.stepId),
                "child_snapshot" := CanonicalSnapshot(c.childSnapshot)])
  }

  function CanonicalSnapshot(s: PauseSnapshot): Json
    decreases s, 1
  {
    var r := s.carriers;
    JObject(SnapshotHead(s)
            + map["fan_out_resume" := if r.fanOut.None? then JNull else CanonicalFanOut(r.fanOut.value, false)]
            + map["peer_fan_out_resume" := if r.peerFanOut.None? then JNull else CanonicalPeer(r.peerFanOut.value)]
            + Opt("orchestrator_effect_fence_resume", OrchestratorField(r.orchestratorFence)))
  }

  function CoveredBase(c: Covered): map<string, Json> {
    map["workflow_id" := JString(c.workflowId), "run_id" := JString(c.runId),
        "step_index" := JInt(c.stepIndex), "state_summary" := DumpSummary(c.stateSummary)]
  }

  function FanOutField(r: Carriers): Option<Json> {
    if r.fanOut.None? then None else Some(CanonicalFanOut(r.fanOut.value, true))
  }

  function PeerField(r: Carriers): Option<Json> {
    if r.peerFanOut.None? then None else Some(CanonicalPeer(r.peerFanOut.value))
  }

  function HandoffField(r: Carriers): Option<Json> {
    if r.handoff.None? then None else Some(DumpHandoff(r.handoff.value))
  }

  function LoopField(r: Carriers): Option<Json> {
    if r.evaluatorOptimizer.None? then None else Some(DumpEvaluatorOptimizer(r.evaluatorOptimizer.value))
  }

  function FenceField(r: Carriers): Option<Json> {
    if r.effectFence.None? then None else Some(DumpEffectFence(r.effectFence.value))
  }

  const CARRIER_KEYS: seq<string> := [
    "fan_out_resume", "peer_fan_out_resume", "handoff_resume", "evaluator_optimizer_resume",
    "effect_fence_resume", "orchestrator_effect_fence_resume"]

  function CarrierFields(r: Carriers): (fields: seq<Option<Json>>)
    ensures |fields| == |CARRIER_KEYS|
  {
    [FanOutField(r), PeerField(r), HandoffField(r), LoopField(r), FenceField(r), OrchestratorField(r.orchestratorFence)]
  }

  /** `m` with each field that is present written under its key, in order. */
  function WithFields(m: map<string, Json>, keys: seq<string>, fields: seq<Option<Json>>): map<string, Json>
    requires |keys| == |fields|
  {
    if keys == [] then m
    else
      var last := |keys| - 1;
      WithFields(m, keys[..last], fields[..last]) + Opt(keys[last], fields[last])
  }

  /** The dictionary whose compact sorted text is hashed. */
  function Canonical(c: Covered): Json {
    JObject(WithFields(CoveredBase(c), CARRIER_KEYS, CarrierFields(c.carriers)))
  }

  function CanonicalText(c: Covered): string {
    Print(Canonical(c))
  }

  // ---------------------------------------------------------------- dump, pop and strip reach that form

  const ADDITIVE_KEYS := {"paused_child_branches", "synthesis_step_id", "effect_fence_paused_branches"}

  lemma Assoc(a: map<string, Json>, b: map<string, Json>, c: map<string, Json>)
    ensures a + (b + c) == a + b + c
  {
  }

  lemma PopNullForm(m: map<string, Json>, k: string, o: Option<Json>, n: map<string, Json>)
    requires k !in m && k !in n && (o.Some? ==> !o.value.JNull?)
    ensures PopIfNull(m + map[k := if o.None? then JNull else o.value] + n, k) == m + Opt(k, o) + n
  {
  }

  lemma PopFalsyForm(m: map<string, Json>, k: string, items: seq<Json>, n: map<string, Json>)
    requires k !in m && k !in n
    ensures PopIfFalsy(m + map[k := JArray(items)] + n, k)
            == m + Opt(k, if items == [] then None else Some(JArray(items))) + n
  {
  }

  lemma UpdateLeft<K, V>(p: map<K, V>, n: map<K, V>, k: K, w: V)
    requires k !in n
    ensures (p + n)[k := w] == p[k := w] + n
  {
    var a, b := (p + n)[k := w], p[k := w] + n;
    assert forall x :: x in a <==> x in b;
    assert forall x | x in a :: a[x] == b[x];
  }

  lemma Overwrite<K, V>(m: map<K, V>, k: K, v: V, w: V)
    ensures (m + map[k := v])[k := w] == m + map[k := w]
  {
  }

  lemma ReplaceForm(m: map<string, Json>, k: string, v: Json, w: Json, n: map<string, Json>)
    requires k !in n
    ensures (m + map[k := v] + n)[k := w] == m + map[k := w] + n
  {
    UpdateLeft(m + map[k := v], n, k, w);
    Overwrite(m, k, v, w);
  }

  /** The two pops turn the always-written additive fields into the present-when-set ones. */
  lemma PopsForm(withKids: map<string, Json>, synthesisStepId: Option<string>, fenced: seq<FencedBranch>)
    requires "synthesis_step_id" !in withKids && "effect_fence_paused_branches" !in withKids
    ensures PopIfFalsy(PopIfNull(withKids + AdditiveDump(synthesisStepId, fenced), "synthesis_step_id"),
                       "effect_fence_paused_branches")
            == withKids + AdditiveForm(synthesisStepId, fenced)
  {
    var ks, ke := "synthesis_step_id", "effect_fence_paused_branches";
    assert ks != ke;
    var items := MapSeq(DumpFenced, fenced);
    var synthesis := map[ks := OptString(synthesisStepId)];
    var last := map[ke := JArray(items)];
    assert AdditiveDump(synthesisStepId, fenced) == synthesis + last;
    Assoc(withKids, synthesis, last);
    PopNullForm(withKids, ks, SynthesisField(synthesisStepId), last);
    var popped := withKids + Opt(ks, SynthesisField(synthesisStepId));
    assert popped + last == popped + last + map[];
    PopFalsyForm(popped, ke, items, map[]);
    var form := popped + Opt(ke, FencedField(fenced));
    assert form == form + map[];
    Assoc(withKids, Opt(ks, SynthesisField(synthesisStepId)), Opt(ke, FencedField(fenced)));
  }

  lemma StripAdditive(base: map<string, Json>, children: Option<seq<Json>>, synthesisStepId: Option<string>,
                      fenced: seq<FencedBranch>)
    requires base.Keys !! ADDITIVE_KEYS
    ensures StripCarrier(JObject(base + KidsField(children) + AdditiveDump(synthesisStepId, fenced)))
            == JObject(base + KidsField(if children.None? then None else Some(StripChildren(children.value)))
                       + AdditiveForm(synthesisStepId, fenced))
  {
    hide StripChildren;
    hide PopIfNull;
    hide PopIfFalsy;
    var kc := "paused_child_branches";
    PopsForm(base + KidsField(children), synthesisStepId, fenced);
    assert kc !in AdditiveForm(synthesisStepId, fenced);
    if children.Some? {
      ReplaceForm(base, kc, JArray(children.value), JArray(StripChildren(children.value)),
                  AdditiveForm(synthesisStepId, fenced));
      KidsAreReached(base, children.value, synthesisStepId, fenced);
    }
  }

  lemma KidsAreReached(base: map<string, Json>, children: seq<Json>, synthesisStepId: Option<string>,
                       fenced: seq<FencedBranch>)
    ensures var m := base + KidsField(Some(children)) + AdditiveDump(synthesisStepId, fenced);
            "paused_child_branches" in m && m["paused_child_branches"] == JArray(children)
  {
  }

  lemma StripPeerDump(p: PeerFanOutResume)
    ensures StripCarrier(DumpPeer(p)) == CanonicalPeer(p)
  {
    StripAdditive(PeerBase(p), None, p.synthesisStepId, p.fencedBranches);
    assert PeerBase(p) + map[] == PeerBase(p);
  }

  lemma PopEmptyKids(f: FanOutResume)
    ensures PopIfFalsy(DumpFanOut(f).members, "paused_child_branches")
            == FanOutBase(f)
               + KidsField(if f.pausedChildren == [] then None else Some(DumpChildren(f.pausedChildren)))
               + AdditiveDump(f.synthesisStepId, f.fencedBranches)
  {
    hide PopIfFalsy;
    PopFalsyForm(FanOutBase(f), "paused_child_branches", DumpChildren(f.pausedChildren),
                 AdditiveDump(f.synthesisStepId, f.fencedBranches));
    assert DumpChildren(f.pausedChildren) == [] <==> f.pausedChildren == [];
  }

  lemma {:induction false} StripFanOutDump(f: FanOutResume)
    ensures StripCarrier(DumpFanOut(f)) == CanonicalFanOut(f, false)
    ensures StripCarrier(JObject(PopIfFalsy(DumpFanOut(f).members, "paused_child_branches")))
            == CanonicalFanOut(f, true)
    decreases f, 1
  {
    hide StripCarrier;
    hide StripChildren;
    hide PopIfFalsy;
    hide AdditiveDump;
    hide AdditiveForm;
    StripChildrenDump(f.pausedChildren);
    PopEmptyKids(f);
    FanOutBaseKeys(f);
    StripAdditive(FanOutBase(f), Some(DumpChildren(f.pausedChildren)), f.synthesisStepId, f.fencedBranches);
    StripAdditive(FanOutBase(f), None, f.synthesisStepId, f.fencedBranches);
  }

  lemma FanOutBaseKeys(f: FanOutResume)
    ensures FanOutBase(f).Keys !! ADDITIVE_KEYS
  {
  }

  lemma {:induction false} StripChildrenDump(cs: seq<PausedChild>)
    ensures StripChildren(DumpChildren(cs)) == CanonicalChildren(cs)
    decreases cs, 0
  {
    if cs != [] {
      StripChildDump(cs[0]);
      StripChildrenDump(cs[1..]);
    }
  }

  lemma {:induction false} StripChildDump(c: PausedChild)
    ensures StripChild(DumpChild(c)) == CanonicalChild(c)
    decreases c, 1
  {
    hide StripSnapshot;
    hide DumpSnapshot;
    hide CanonicalSnapshot;
    StripSnapshotDump(c.childSnapshot);
    assert StripChild(DumpChild(c)).members == CanonicalChild(c).members;
  }

  lemma {:induction false} StripSnapshotDump(s: PauseSnapshot)
    ensures StripSnapshot(DumpSnapshot(s)) == CanonicalSnapshot(s)
    decreases s, 1
  {
    hide StripCarrier;
    hide DumpFanOut;
    hide DumpPeer;
    hide CanonicalFanOut;
    hide CanonicalPeer;
    hide SnapshotHead;
    hide PopIfNull;
    var r := s.carriers;
    if r.fanOut.Some? { StripFanOutDump(r.fanOut.value); }
    if r.peerFanOut.Some? { StripPeerDump(r.peerFanOut.value); }
    StripNull();
    var fan := if r.fanOut.None? then JNull else DumpFanOut(r.fanOut.value);
    var peer := if r.peerFanOut.None? then JNull else DumpPeer(r.peerFanOut.value);
    SnapshotHeadKeys(s);
    StripSnapshotForm(SnapshotHead(s), fan, peer, OrchestratorField(r.orchestratorFence));
  }

  lemma StripNull()
    ensures StripCarrier(JNull) == JNull
  {
  }

  lemma SnapshotHeadKeys(s: PauseSnapshot)
    ensures SnapshotHead(s).Keys !! {"fan_out_resume", "peer_fan_out_resume", "orchestrator_effect_fence_resume"}
  {
  }

  lemma StripSnapshotForm(head: map<string, Json>, fan: Json, peer: Json, fence: Option<Json>)
    requires head.Keys !! {"fan_out_resume", "peer_fan_out_resume", "orchestrator_effect_fence_resume"}
    requires fence.Some? ==> !fence.value.JNull?
    ensures StripSnapshot(JObject(head + map["fan_out_resume" := fan] + map["peer_fan_out_resume" := peer]
                                  + map["orchestrator_effect_fence_resume" :=
                                        if fence.None? then JNull else fence.value]))
            == JObject(head + map["fan_out_resume" := StripCarrier(fan)]
                       + map["peer_fan_out_resume" := StripCarrier(peer)]
                       + Opt("orchestrator_effect_fence_resume", fence))
  {
    hide *;
    var kf, kp, ko := "fan_out_resume", "peer_fan_out_resume", "orchestrator_effect_fence_resume";
    assert kf != kp && kf != ko && kp != ko;
    var last := Opt(ko, fence);
    OptKeys(ko, fence);
    var before := head + map[kf := fan] + map[kp := peer];
    var dump := before + map[ko := if fence.None? then JNull else fence.value];
    PlusNothing(dump);
    PlusNothing(before + last);
    PopNullForm(before, ko, fence, map[]);
    StripSnapshotSteps(dump);
    StripAtForm(head, kf, fan, map[kp := peer], last);
    PlusNothing(head + map[kf := StripCarrier(fan)] + map[kp := peer] + last);
    StripAtForm(head + map[kf := StripCarrier(fan)], kp, peer, last, map[]);
    PlusNothing(head + map[kf := StripCarrier(fan)] + map[kp := StripCarrier(peer)] + last);
  }

  lemma OptKeys(k: string, o: Option<Json>)
    ensures Opt(k, o).Keys <= {k}
  {
  }

  lemma PlusNothing(m: map<string, Json>)
    ensures m + map[] == m
  {
  }

  lemma StripAtForm(m: map<string, Json>, k: string, v: Json, n: map<string, Json>, o: map<string, Json>)
    requires k !in n && k !in o
    ensures StripAt(m + map[k := v] + n + o, k) == m + map[k := StripCarrier(v)] + n + o
  {
    hide *;
    var whole := m + map[k := v] + n + o;
    assert k in whole && whole[k] == v;
    StripAtIs(whole, k);
    Assoc(m + map[k := v], n, o);
    Assoc(m + map[k := StripCarrier(v)], n, o);
    ReplaceForm(m, k, v, StripCarrier(v), n + o);
  }

  // ---------------------------------------------------------------- the hash

  /** What the dictionary holds after the first `n` carriers have been considered. */
  function Filled(c: Covered, n: nat): map<string, Json>
    requires n <= |CARRIER_KEYS|
  {
    WithFields(CoveredBase(c), CARRIER_KEYS[..n], CarrierFields(c.carriers)[..n])
  }

  lemma FillNext(c: Covered, n: nat)
    requires n < |CARRIER_KEYS|
    ensures Filled(c, n + 1)
            == match CarrierFields(c.carriers)[n]
               case None => Filled(c, n)
               case Some(v) => Filled(c, n)[CARRIER_KEYS[n] := v]
  {
    hide CarrierFields;
    var ks, fs := CARRIER_KEYS, CarrierFields(c.carriers);
    assert ks[..n + 1][..n] == ks[..n] && fs[..n + 1][..n] == fs[..n];
    assert ks[..n + 1][n] == ks[n] && fs[..n + 1][n] == fs[n];
  }

  lemma CarrierKeysAre()
    ensures CARRIER_KEYS == ["fan_out_resume", "peer_fan_out_resume", "handoff_resume", "evaluator_optimizer_resume",
                             "effect_fence_resume", "orchestrator_effect_fence_resume"]
  {
  }

  lemma CarrierFieldsAre(r: Carriers)
    ensures CarrierFields(r)[0] == if r.fanOut.None? then None else Some(CanonicalFanOut(r.fanOut.value, true))
    ensures CarrierFields(r)[1] == if r.peerFanOut.None? then None else Some(CanonicalPeer(r.peerFanOut.value))
    ensures CarrierFields(r)[2] == if r.handoff.None? then None else Some(DumpHandoff(r.handoff.value))
    ensures CarrierFields(r)[3]
         == if r.evaluatorOptimizer.None? then None else Some(DumpEvaluatorOptimizer(r.evaluatorOptimizer.value))
    ensures CarrierFields(r)[4] == if r.effectFence.None? then None else Some(DumpEffectFence(r.effectFence.value))
    ensures CarrierFields(r)[5]
         == if r.orchestratorFence.None? then None else Some(DumpOrchestratorFence(r.orchestratorFence.value))
  {
  }

  lemma FilledEnds(c: Covered)
    ensures Filled(c, 0) == CoveredBase(c) && Print(JObject(Filled(c, |CARRIER_KEYS|))) == CanonicalText(c)
  {
    var ks, fs := CARRIER_KEYS, CarrierFields(c.carriers);
    assert ks[..|ks|] == ks && fs[..|fs|] == fs;
  }

  /** The fan-out carrier's dump, changed in place: an empty list of paused children popped, then stripped. */
  method DumpAndStripFanOut(f: FanOutResume) returns (carrier: PyValue)
    ensures Tree(carrier) && ReadJson(carrier) == CanonicalFanOut(f, true)
  {
    hide *;
    carrier := ModelDump(DumpFanOut(f));
    TruthyIsNotFalsy(carrier);
    RefOwnsItself(carrier);
    PopFalsy(carrier.d, "paused_child_branches");
    StripDefaultFanoutResumeFields(carrier);
    StripFanOutDump(f);
  }

  lemma RefOwnsItself(v: PyValue)
    requires Tree(v) && v.PyRef?
    ensures v.d in Owned(v)
  {
  }

  /** The hash is taken over the canonical text: the dictionary is filled step by step, each carrier
      dumped, popped and stripped on the way in.  `sha` stands for SHA-256 in hex over encoded text. */
  method ComputeSnapshotHash(sha: string -> string, c: Covered) returns (hash: string)
    ensures hash == sha(CanonicalText(c))
  {
    hide *;
    CarrierKeysAre();
    CarrierFieldsAre(c.carriers);
    var r := c.carriers;
    var canonical := CoveredBase(c);
    FilledEnds(c);
    FillNext(c, 0);
    if r.fanOut.Some? {
      var carrier := DumpAndStripFanOut(r.fanOut.value);
      canonical := canonical["fan_out_resume" := ReadJson(carrier)];
    }
    assert canonical == Filled(c, 1);
    FillNext(c, 1);
    if r.peerFanOut.Some? {
      var carrier := ModelDump(DumpPeer(r.peerFanOut.value));
      StripDefaultFanoutResumeFields(carrier);
      StripPeerDump(r.peerFanOut.value);
      canonical := canonical["peer_fan_out_resume" := ReadJson(carrier)];
    }
    assert canonical == Filled(c, 2);
    FillNext(c, 2);
    if r.handoff.Some? {
      canonical := canonical["handoff_resume" := DumpHandoff(r.handoff.value)];
    }
    assert canonical == Filled(c, 3);
    FillNext(c, 3);
    if r.evaluatorOptimizer.Some? {
      canonical := canonical["evaluator_optimizer_resume" := DumpEvaluatorOptimizer(r.evaluatorOptimizer.value)];
    }
    assert canonical == Filled(c, 4);
    FillNext(c, 4);
    if r.effectFence.Some? {
      canonical := canonical["effect_fence_resume" := DumpEffectFence(r.effectFence.value)];
    }
    assert canonical == Filled(c, 5);
    FillNext(c, 5);
    if r.orchestratorFence.Some? {
      canonical := canonical["orchestrator_effect_fence_resume" := DumpOrchestratorFence(r.orchestratorFence.value)];
    }
    assert canonical == Filled(c, 6);
    hash := sha(Print(JObject(canonical)));
  }
}
