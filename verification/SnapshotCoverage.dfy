/** The hashed text loses nothing: two tuples of covered fields with the same canonical text are
    the same tuple, through snapshots nested to any depth and through arbitrary user payloads. */
module SnapshotCoverage {
  import opened Sequences
  import opened Wrappers
  import opened JsonText
  import opened PauseSnapshots
  import opened SnapshotCanonicalForm

  ghost predicate Injective<T(!new)>(f: T -> Json) {
    forall x, y :: f(x) == f(y) ==> x == y
  }

  lemma MapSeqInjective<T(!new)>(f: T -> Json, xs: seq<T>, ys: seq<T>)
    requires Injective(f) && MapSeq(f, xs) == MapSeq(f, ys)
    ensures xs == ys
  {
    assert |xs| == |ys|;
    forall i | 0 <= i < |xs| ensures xs[i] == ys[i] {
      assert MapSeq(f, xs)[i] == f(xs[i]) && MapSeq(f, ys)[i] == f(ys[i]);
    }
  }

  lemma EntryRefInjective()
    ensures Injective(DumpEntryRef)
  {
    forall a, b | DumpEntryRef(a) == DumpEntryRef(b) ensures a == b {
      var m, n := DumpEntryRef(a).members, DumpEntryRef(b).members;
      assert m["action_id"] == n["action_id"] && m["entry_hash"] == n["entry_hash"] && m["actor"] == n["actor"];
    }
  }

  lemma ReferenceInjective()
    ensures Injective(DumpReference)
  {
    forall a, b | DumpReference(a) == DumpReference(b) ensures a == b {
      var m, n := DumpReference(a).members, DumpReference(b).members;
      assert m["reference_class"] == n["reference_class"] && m["reference_id"] == n["reference_id"];
      assert m["snapshot_capture_at_pause"] == n["snapshot_capture_at_pause"];
    }
  }

  lemma SummaryInjective()
    ensures Injective(DumpSummary)
  {
    forall a, b | DumpSummary(a) == DumpSummary(b) ensures a == b {
      hide MapSeq;
      var m, n := DumpSummary(a).members, DumpSummary(b).members;
      assert m["relevant_entries"] == n["relevant_entries"] && m["summary_text"] == n["summary_text"];
      assert m["summary_hash"] == n["summary_hash"] && m["idempotency_key"] == n["idempotency_key"];
      assert m["external_references"] == n["external_references"];
      EntryRefInjective();
      ReferenceInjective();
      MapSeqInjective(DumpEntryRef, a.relevantEntries, b.relevantEntries);
      MapSeqInjective(DumpReference, a.externalReferences, b.externalReferences);
    }
  }

  lemma TerminalInjective()
    ensures Injective(DumpTerminal)
  {
    forall a, b | DumpTerminal(a) == DumpTerminal(b) ensures a == b {
      var m, n := DumpTerminal(a).members, DumpTerminal(b).members;
      assert m["branch_index"] == n["branch_index"] && m["step_id"] == n["step_id"];
      assert m["terminal_status"] == n["terminal_status"] && m["output"] == n["output"];
    }
  }

  lemma FencedInjective()
    ensures Injective(DumpFenced)
  {
    forall a, b | DumpFenced(a) == DumpFenced(b) ensures a == b {
      var m, n := DumpFenced(a).members, DumpFenced(b).members;
      assert m["branch_index"] == n["branch_index"] && m["step_id"] == n["step_id"];
      assert m["step_kind"] == n["step_kind"] && m["idempotency_key"] == n["idempotency_key"];
    }
  }

  lemma HandoffInjective(a: HandoffResume, b: HandoffResume)
    requires DumpHandoff(a) == DumpHandoff(b)
    ensures a == b
  {
    hide MapSeq;
    forall s, t | DumpStage(s) == DumpStage(t) ensures s == t {
      var m, n := DumpStage(s).members, DumpStage(t).members;
      assert m["stage_index"] == n["stage_index"] && m["step_id"] == n["step_id"] && m["output"] == n["output"];
    }
    var m, n := DumpHandoff(a).members, DumpHandoff(b).members;
    assert m["completed_stages"] == n["completed_stages"] && m["stage_count"] == n["stage_count"];
    MapSeqInjective(DumpStage, a.completedStages, b.completedStages);
  }

  lemma EvaluatorOptimizerInjective(a: EvaluatorOptimizerResume, b: EvaluatorOptimizerResume)
    requires DumpEvaluatorOptimizer(a) == DumpEvaluatorOptimizer(b)
    ensures a == b
  {
    hide MapSeq;
    forall s, t | DumpLoopStep(s) == DumpLoopStep(t) ensures s == t {
      var m, n := DumpLoopStep(s).members, DumpLoopStep(t).members;
      assert m["entry_index"] == n["entry_index"] && m["declared_step_index"] == n["declared_step_index"];
      assert m["step_id"] == n["step_id"] && m["output"] == n["output"];
    }
    var m, n := DumpEvaluatorOptimizer(a).members, DumpEvaluatorOptimizer(b).members;
    assert m["completed_steps"] == n["completed_steps"];
    MapSeqInjective(DumpLoopStep, a.completedSteps, b.completedSteps);
  }

  lemma FencesInjective()
    ensures forall a, b :: DumpEffectFence(a) == DumpEffectFence(b) ==> a == b
    ensures forall a, b :: DumpOrchestratorFence(a) == DumpOrchestratorFence(b) ==> a == b
  {
    forall a, b | DumpEffectFence(a) == DumpEffectFence(b) ensures a == b {
      assert DumpEffectFence(a).members["idempotency_key"] == DumpEffectFence(b).members["idempotency_key"];
    }
    forall a, b | DumpOrchestratorFence(a) == DumpOrchestratorFence(b) ensures a == b {
      var m, n := DumpOrchestratorFence(a).members, DumpOrchestratorFence(b).members;
      assert m["idempotency_key"] == n["idempotency_key"] && m["step_id"] == n["step_id"];
      assert m["step_kind"] == n["step_kind"];
    }
  }

  lemma PauseReasonInjective(a: WorkflowPauseReason, b: WorkflowPauseReason)
    requires PauseReasonText(a) == PauseReasonText(b)
    ensures a == b
  {
  }

  // ---------------------------------------------------------------- the carriers

  lemma OptInjective(m: map<string, Json>, n: map<string, Json>, k: string, o: Option<Json>, p: Option<Json>)
    requires k !in m && k !in n && m + Opt(k, o) == n + Opt(k, p)
    ensures m == n && o == p
  {
    var whole := m + Opt(k, o);
    assert m == whole - {k} && n == whole - {k};
    assert o.Some? <==> k in whole;
    assert p.Some? <==> k in n + Opt(k, p);
    assert o.Some? ==> whole[k] == o.value;
    assert p.Some? ==> (n + Opt(k, p))[k] == p.value;
  }

  lemma SynthesisInjective(s: Option<string>, t: Option<string>)
    requires SynthesisField(s) == SynthesisField(t)
    ensures s == t
  {
  }

  lemma FencedFieldInjective(f: seq<FencedBranch>, g: seq<FencedBranch>)
    requires FencedField(f) == FencedField(g)
    ensures f == g
  {
    hide MapSeq;
    FencedInjective();
    if f != [] && g != [] { MapSeqInjective(DumpFenced, f, g); }
  }

  function KidsValue(children: Option<seq<Json>>): Option<Json> {
    if children.None? then None else Some(JArray(children.value))
  }

  lemma AdditiveIs(b: map<string, Json>, c: Option<seq<Json>>, s: Option<string>, f: seq<FencedBranch>)
    requires b.Keys !! ADDITIVE_KEYS
    ensures b + KidsField(c) + AdditiveForm(s, f)
            == b + Opt("paused_child_branches", KidsValue(c)) + Opt("synthesis_step_id", SynthesisField(s))
               + Opt("effect_fence_paused_branches", FencedField(f))
    ensures "paused_child_branches" !in b
    ensures "synthesis_step_id" !in b + Opt("paused_child_branches", KidsValue(c))
    ensures "effect_fence_paused_branches"
            !in b + Opt("paused_child_branches", KidsValue(c)) + Opt("synthesis_step_id", SynthesisField(s))
  {
    hide FencedField;
    hide SynthesisField;
    var kc, ks, ke := "paused_child_branches", "synthesis_step_id", "effect_fence_paused_branches";
    assert kc != ks && kc != ke && ks != ke;
    assert kc in ADDITIVE_KEYS && ks in ADDITIVE_KEYS && ke in ADDITIVE_KEYS;
    Assoc(b + KidsField(c), Opt(ks, SynthesisField(s)), Opt(ke, FencedField(f)));
  }

  /** A carrier's three additive fields can be read off the hashed object, whatever else it holds. */
  lemma AdditiveInjective(
    b1: map<string, Json>, c1: Option<seq<Json>>, s1: Option<string>, f1: seq<FencedBranch>,
    b2: map<string, Json>, c2: Option<seq<Json>>, s2: Option<string>, f2: seq<FencedBranch>)
    requires b1.Keys !! ADDITIVE_KEYS && b2.Keys !! ADDITIVE_KEYS
    requires b1 + KidsField(c1) + AdditiveForm(s1, f1) == b2 + KidsField(c2) + AdditiveForm(s2, f2)
    ensures b1 == b2 && c1 == c2 && s1 == s2 && f1 == f2
  {
    hide *;
    var kc, ks, ke := "paused_child_branches", "synthesis_step_id", "effect_fence_paused_branches";
    AdditiveIs(b1, c1, s1, f1);
    AdditiveIs(b2, c2, s2, f2);
    var m1, m2 := b1 + Opt(kc, KidsValue(c1)), b2 + Opt(kc, KidsValue(c2));
    OptInjective(m1 + Opt(ks, SynthesisField(s1)), m2 + Opt(ks, SynthesisField(s2)),
                 ke, FencedField(f1), FencedField(f2));
    OptInjective(m1, m2, ks, SynthesisField(s1), SynthesisField(s2));
    OptInjective(b1, b2, kc, KidsValue(c1), KidsValue(c2));
    SynthesisInjective(s1, s2);
    FencedFieldInjective(f1, f2);
    KidsInjective(c1, c2);
  }

  lemma KidsInjective(c: Option<seq<Json>>, d: Option<seq<Json>>)
    requires KidsValue(c) == KidsValue(d)
    ensures c == d
  {
  }

  lemma PeerInjective(a: PeerFanOutResume, b: PeerFanOutResume)
    requires CanonicalPeer(a) == CanonicalPeer(b)
    ensures a == b
  {
    hide MapSeq;
    hide AdditiveForm;
    assert PeerBase(a).Keys !! ADDITIVE_KEYS && PeerBase(b).Keys !! ADDITIVE_KEYS;
    assert PeerBase(a) + map[] == PeerBase(a) && PeerBase(b) + map[] == PeerBase(b);
    AdditiveInjective(PeerBase(a), None, a.synthesisStepId, a.fencedBranches,
                      PeerBase(b), None, b.synthesisStepId, b.fencedBranches);
    assert PeerBase(a)["branches"] == PeerBase(b)["branches"];
    assert PeerBase(a)["branch_count"] == PeerBase(b)["branch_count"];
    TerminalInjective();
    MapSeqInjective(DumpTerminal, a.branches, b.branches);
  }

  lemma FanOutBaseInjective(a: FanOutResume, b: FanOutResume)
    requires FanOutBase(a) == FanOutBase(b)
    ensures a.orchestratorOutput == b.orchestratorOutput && a.orchestratorStepId == b.orchestratorStepId
    ensures a.branches == b.branches && a.workerCount == b.workerCount
  {
    hide MapSeq;
    var m, n := FanOutBase(a), FanOutBase(b);
    assert m["orchestrator_output"] == n["orchestrator_output"] && m["branches"] == n["branches"];
    assert m["orchestrator_step_id"] == n["orchestrator_step_id"] && m["worker_count"] == n["worker_count"];
    TerminalInjective();
    MapSeqInjective(DumpTerminal, a.branches, b.branches);
  }

  lemma {:induction false} FanOutInjective(a: FanOutResume, b: FanOutResume, outermost: bool)
    requires CanonicalFanOut(a, outermost) == CanonicalFanOut(b, outermost)
    ensures a == b
    decreases a, 1
  {
    hide FanOutBase;
    hide AdditiveForm;
    hide CanonicalChildren;
    FanOutBaseKeys(a);
    FanOutBaseKeys(b);
    var ka := if outermost && a.pausedChildren == [] then None else Some(CanonicalChildren(a.pausedChildren));
    var kb := if outermost && b.pausedChildren == [] then None else Some(CanonicalChildren(b.pausedChildren));
    AdditiveInjective(FanOutBase(a), ka, a.synthesisStepId, a.fencedBranches,
                      FanOutBase(b), kb, b.synthesisStepId, b.fencedBranches);
    FanOutBaseInjective(a, b);
    if ka.Some? { ChildrenInjective(a.pausedChildren, b.pausedChildren); }
  }

  lemma CanonicalChildrenCons(xs: seq<PausedChild>)
    requires xs != []
    ensures CanonicalChildren(xs) == [CanonicalChild(xs[0])] + CanonicalChildren(xs[1..])
    ensures xs == [xs[0]] + xs[1..]
  {
    hide CanonicalChild;
  }

  lemma ConsInjective<T>(x: T, xs: seq<T>, y: T, ys: seq<T>)
    requires [x] + xs == [y] + ys
    ensures x == y && xs == ys
  {
    assert ([x] + xs)[0] == ([y] + ys)[0];
    assert ([x] + xs)[1..] == xs && ([y] + ys)[1..] == ys;
  }

  lemma {:induction false} ChildrenInjective(xs: seq<PausedChild>, ys: seq<PausedChild>)
    requires CanonicalChildren(xs) == CanonicalChildren(ys)
    ensures xs == ys
    decreases xs, 0
  {
    hide *;
    assert |xs| == |CanonicalChildren(xs)| == |ys|;
    if xs != [] {
      CanonicalChildrenCons(xs);
      CanonicalChildrenCons(ys);
      ConsInjective(CanonicalChild(xs[0]), CanonicalChildren(xs[1..]),
                    CanonicalChild(ys[0]), CanonicalChildren(ys[1..]));
      ChildInjective(xs[0], ys[0]);
      ChildrenInjective(xs[1..], ys[1..]);
    }
  }

  lemma {:induction false} ChildInjective(a: PausedChild, b: PausedChild)
    requires CanonicalChild(a) == CanonicalChild(b)
    ensures a == b
    decreases a, 1
  {
    hide CanonicalSnapshot;
    var m, n := CanonicalChild(a).members, CanonicalChild(b).members;
    assert m["branch_index"] == n["branch_index"] && m["step_id"] == n["step_id"];
    assert m["child_snapshot"] == n["child_snapshot"];
    SnapshotInjective(a.childSnapshot, b.childSnapshot);
  }

  lemma HeadNames(a: PauseSnapshot, b: PauseSnapshot)
    requires SnapshotHead(a) == SnapshotHead(b)
    ensures a.workflowId == b.workflowId && a.runId == b.runId
  {
    hide DumpSummary;
    hide DumpHandoff;
    hide DumpEvaluatorOptimizer;
    hide DumpEffectFence;
    hide PauseReasonText;
    var m, n := SnapshotHead(a), SnapshotHead(b);
    assert m["workflow_id"] == n["workflow_id"] && m["run_id"] == n["run_id"];
  }

  lemma HeadStep(a: PauseSnapshot, b: PauseSnapshot)
    requires SnapshotHead(a) == SnapshotHead(b)
    ensures a.stepIndex == b.stepIndex && PauseReasonText(a.pauseReason) == PauseReasonText(b.pauseReason)
  {
    hide DumpSummary;
    hide DumpHandoff;
    hide DumpEvaluatorOptimizer;
    hide DumpEffectFence;
    hide PauseReasonText;
    var m, n := SnapshotHead(a), SnapshotHead(b);
    assert m["step_index"] == n["step_index"] && m["pause_reason"] == n["pause_reason"];
  }

  lemma HeadRecord(a: PauseSnapshot, b: PauseSnapshot)
    requires SnapshotHead(a) == SnapshotHead(b)
    ensures DumpSummary(a.stateSummary) == DumpSummary(b.stateSummary)
    ensures a.snapshotHash == b.snapshotHash && a.createdAt == b.createdAt && a.stateLedgerAnchor == b.stateLedgerAnchor
  {
    hide DumpSummary;
    hide DumpHandoff;
    hide DumpEvaluatorOptimizer;
    hide DumpEffectFence;
    hide PauseReasonText;
    var m, n := SnapshotHead(a), SnapshotHead(b);
    assert m["state_summary"] == n["state_summary"] && m["snapshot_hash"] == n["snapshot_hash"];
    assert m["created_at"] == n["created_at"] && m["state_ledger_anchor"] == n["state_ledger_anchor"];
  }

  lemma HeadCarriers(a: PauseSnapshot, b: PauseSnapshot)
    requires SnapshotHead(a) == SnapshotHead(b)
    ensures a.carriers.handoff == b.carriers.handoff
    ensures a.carriers.evaluatorOptimizer == b.carriers.evaluatorOptimizer
    ensures a.carriers.effectFence == b.carriers.effectFence
  {
    hide DumpSummary;
    hide DumpHandoff;
    hide DumpEvaluatorOptimizer;
    hide DumpEffectFence;
    hide PauseReasonText;
    var m, n := SnapshotHead(a), SnapshotHead(b);
    assert m["handoff_resume"] == n["handoff_resume"];
    assert m["evaluator_optimizer_resume"] == n["evaluator_optimizer_resume"];
    assert m["effect_fence_resume"] == n["effect_fence_resume"];
    OptionalDumps(a.carriers, b.carriers);
  }

  lemma HeadInjective(a: PauseSnapshot, b: PauseSnapshot)
    requires SnapshotHead(a) == SnapshotHead(b)
    ensures b.(carriers := a.carriers) == a
    ensures a.carriers.handoff == b.carriers.handoff
    ensures a.carriers.evaluatorOptimizer == b.carriers.evaluatorOptimizer
    ensures a.carriers.effectFence == b.carriers.effectFence
  {
    hide SnapshotHead;
    hide DumpSummary;
    HeadNames(a, b);
    HeadStep(a, b);
    HeadRecord(a, b);
    HeadCarriers(a, b);
    PauseReasonInjective(a.pauseReason, b.pauseReason);
    SummaryInjective();
  }

  lemma OptionalDumps(a: Carriers, b: Carriers)
    requires (if a.handoff.None? then JNull else DumpHandoff(a.handoff.value))
          == (if b.handoff.None? then JNull else DumpHandoff(b.handoff.value))
    requires (if a.evaluatorOptimizer.None? then JNull else DumpEvaluatorOptimizer(a.evaluatorOptimizer.value))
          == (if b.evaluatorOptimizer.None? then JNull else DumpEvaluatorOptimizer(b.evaluatorOptimizer.value))
    requires (if a.effectFence.None? then JNull else DumpEffectFence(a.effectFence.value))
          == (if b.effectFence.None? then JNull else DumpEffectFence(b.effectFence.value))
    ensures a.handoff == b.handoff && a.evaluatorOptimizer == b.evaluatorOptimizer && a.effectFence == b.effectFence
  {
    hide MapSeq;
    if a.handoff.Some? && b.handoff.Some? { HandoffInjective(a.handoff.value, b.handoff.value); }
    if a.evaluatorOptimizer.Some? && b.evaluatorOptimizer.Some? {
      EvaluatorOptimizerInjective(a.evaluatorOptimizer.value, b.evaluatorOptimizer.value);
    }
    FencesInjective();
  }

  lemma CarrierKeysApart(h: map<string, Json>, f: Json, p: Json)
    requires h.Keys !! {"fan_out_resume", "peer_fan_out_resume", "orchestrator_effect_fence_resume"}
    ensures var kf, kp, ko := "fan_out_resume", "peer_fan_out_resume", "orchestrator_effect_fence_resume";
            kf !in h && kp !in h + map[kf := f] && ko !in h + map[kf := f] + map[kp := p]
  {
    var kf, kp, ko := "fan_out_resume", "peer_fan_out_resume", "orchestrator_effect_fence_resume";
    var keys := {kf, kp, ko};
    assert kf != kp && kf != ko && kp != ko;
    assert kf in keys && kp in keys && ko in keys;
  }

  lemma OptIs(k: string, v: Json)
    ensures Opt(k, Some(v)) == map[k := v]
  {
  }

  lemma SnapshotPartsInjective(
    h1: map<string, Json>, f1: Json, p1: Json, o1: Option<Json>,
    h2: map<string, Json>, f2: Json, p2: Json, o2: Option<Json>)
    requires h1.Keys !! {"fan_out_resume", "peer_fan_out_resume", "orchestrator_effect_fence_resume"}
    requires h2.Keys !! {"fan_out_resume", "peer_fan_out_resume", "orchestrator_effect_fence_resume"}
    requires h1 + map["fan_out_resume" := f1] + map["peer_fan_out_resume" := p1]
             + Opt("orchestrator_effect_fence_resume", o1)
          == h2 + map["fan_out_resume" := f2] + map["peer_fan_out_resume" := p2]
             + Opt("orchestrator_effect_fence_resume", o2)
    ensures h1 == h2 && f1 == f2 && p1 == p2 && o1 == o2
  {
    var kf, kp, ko := "fan_out_resume", "peer_fan_out_resume", "orchestrator_effect_fence_resume";
    hide Opt;
    CarrierKeysApart(h1, f1, p1);
    CarrierKeysApart(h2, f2, p2);
    OptIs(kf, f1);
    OptIs(kf, f2);
    OptIs(kp, p1);
    OptIs(kp, p2);
    OptInjective(h1 + map[kf := f1] + map[kp := p1], h2 + map[kf := f2] + map[kp := p2], ko, o1, o2);
    OptInjective(h1 + map[kf := f1], h2 + map[kf := f2], kp, Some(p1), Some(p2));
    OptInjective(h1, h2, kf, Some(f1), Some(f2));
  }

  /** What a nested snapshot holds under its two carrier keys. */
  function FanOutEntry(r: Carriers): Json {
    if r.fanOut.None? then JNull else CanonicalFanOut(r.fanOut.value, false)
  }

  function PeerEntry(r: Carriers): Json {
    if r.peerFanOut.None? then JNull else CanonicalPeer(r.peerFanOut.value)
  }

  lemma CanonicalSnapshotIs(s: PauseSnapshot)
    ensures CanonicalSnapshot(s)
            == JObject(SnapshotHead(s) + map["fan_out_resume" := FanOutEntry(s.carriers)]
                       + map["peer_fan_out_resume" := PeerEntry(s.carriers)]
                       + Opt("orchestrator_effect_fence_resume", OrchestratorField(s.carriers.orchestratorFence)))
  {
    hide SnapshotHead;
    hide CanonicalFanOut;
    hide CanonicalPeer;
    hide OrchestratorField;
  }

  lemma SameFanOutEntry(r: Carriers, q: Carriers)
    requires FanOutEntry(r) == FanOutEntry(q)
    ensures r.fanOut.None? <==> q.fanOut.None?
    ensures r.fanOut.Some? ==> CanonicalFanOut(r.fanOut.value, false) == CanonicalFanOut(q.fanOut.value, false)
  {
    hide CanonicalFanOut;
    CarriersAreObjects();
  }

  lemma SamePeerEntry(r: Carriers, q: Carriers)
    requires PeerEntry(r) == PeerEntry(q)
    ensures r.peerFanOut == q.peerFanOut
  {
    hide CanonicalPeer;
    CarriersAreObjects();
    if r.peerFanOut.Some? && q.peerFanOut.Some? { PeerInjective(r.peerFanOut.value, q.peerFanOut.value); }
  }

  lemma OrchestratorInjective(o: Option<OrchestratorFenceResume>, p: Option<OrchestratorFenceResume>)
    requires OrchestratorField(o) == OrchestratorField(p)
    ensures o == p
  {
    hide DumpOrchestratorFence;
    FencesInjective();
  }

  lemma {:induction false} SnapshotInjective(a: PauseSnapshot, b: PauseSnapshot)
    requires CanonicalSnapshot(a) == CanonicalSnapshot(b)
    ensures a == b
    decreases a, 1
  {
    hide *;
    var r, q := a.carriers, b.carriers;
    SnapshotHeadKeys(a);
    SnapshotHeadKeys(b);
    CanonicalSnapshotIs(a);
    CanonicalSnapshotIs(b);
    SnapshotPartsInjective(SnapshotHead(a), FanOutEntry(r), PeerEntry(r), OrchestratorField(r.orchestratorFence),
                           SnapshotHead(b), FanOutEntry(q), PeerEntry(q), OrchestratorField(q.orchestratorFence));
    HeadInjective(a, b);
    SameFanOutEntry(r, q);
    if r.fanOut.Some? { FanOutInjective(r.fanOut.value, q.fanOut.value, false); }
    SamePeerEntry(r, q);
    OrchestratorInjective(r.orchestratorFence, q.orchestratorFence);
    assert r == q;
  }

  lemma CarriersAreObjects()
    ensures forall f, outermost :: CanonicalFanOut(f, outermost).JObject?
    ensures forall p :: CanonicalPeer(p).JObject?
  {
  }

  // ---------------------------------------------------------------- the covered tuple

  lemma CoveredBaseInjective(c: Covered, d: Covered)
    requires CoveredBase(c) == CoveredBase(d)
    ensures d.(carriers := c.carriers) == c
  {
    hide DumpSummary;
    var m, n := CoveredBase(c), CoveredBase(d);
    assert m["workflow_id"] == n["workflow_id"] && m["run_id"] == n["run_id"];
    assert m["step_index"] == n["step_index"] && m["state_summary"] == n["state_summary"];
    SummaryInjective();
  }

  lemma OuterFanOutInjective(a: Carriers, b: Carriers)
    requires FanOutField(a) == FanOutField(b)
    ensures a.fanOut == b.fanOut
  {
    hide CanonicalFanOut;
    if a.fanOut.Some? { FanOutInjective(a.fanOut.value, b.fanOut.value, true); }
  }

  lemma OuterPeerInjective(a: Carriers, b: Carriers)
    requires PeerField(a) == PeerField(b)
    ensures a.peerFanOut == b.peerFanOut
  {
    hide CanonicalPeer;
    if a.peerFanOut.Some? { PeerInjective(a.peerFanOut.value, b.peerFanOut.value); }
  }

  lemma SequentialFieldsInjective(a: Carriers, b: Carriers)
    requires HandoffField(a) == HandoffField(b) && LoopField(a) == LoopField(b) && FenceField(a) == FenceField(b)
    ensures a.handoff == b.handoff && a.evaluatorOptimizer == b.evaluatorOptimizer && a.effectFence == b.effectFence
  {
    hide DumpHandoff;
    hide DumpEvaluatorOptimizer;
    hide DumpEffectFence;
    if a.handoff.Some? { HandoffInjective(a.handoff.value, b.handoff.value); }
    if a.evaluatorOptimizer.Some? {
      EvaluatorOptimizerInjective(a.evaluatorOptimizer.value, b.evaluatorOptimizer.value);
    }
    FencesInjective();
  }

  lemma FieldsInjective(a: Carriers, b: Carriers)
    requires FanOutField(a) == FanOutField(b) && PeerField(a) == PeerField(b) && HandoffField(a) == HandoffField(b)
    requires LoopField(a) == LoopField(b) && FenceField(a) == FenceField(b)
    requires OrchestratorField(a.orchestratorFence) == OrchestratorField(b.orchestratorFence)
    ensures a == b
  {
    hide *;
    OuterFanOutInjective(a, b);
    OuterPeerInjective(a, b);
    SequentialFieldsInjective(a, b);
    OrchestratorInjective(a.orchestratorFence, b.orchestratorFence);
  }

  lemma {:induction false} WithFieldsKeys(m: map<string, Json>, keys: seq<string>, fields: seq<Option<Json>>, k: string)
    requires |keys| == |fields| && k !in keys && k !in m
    ensures k !in WithFields(m, keys, fields)
  {
    if keys != [] {
      WithFieldsKeys(m, keys[..|keys| - 1], fields[..|keys| - 1], k);
    }
  }

  /** Optional fields under distinct keys can be read back off the dictionary. */
  lemma {:induction false} WithFieldsInjective(
    m: map<string, Json>, n: map<string, Json>, keys: seq<string>, xs: seq<Option<Json>>, ys: seq<Option<Json>>)
    requires |keys| == |xs| == |ys| && Distinct(keys)
    requires forall k | k in keys :: k !in m && k !in n
    requires WithFields(m, keys, xs) == WithFields(n, keys, ys)
    ensures m == n && xs == ys
  {
    if keys != [] {
      var last := |keys| - 1;
      WithFieldsKeys(m, keys[..last], xs[..last], keys[last]);
      WithFieldsKeys(n, keys[..last], ys[..last], keys[last]);
      OptInjective(WithFields(m, keys[..last], xs[..last]), WithFields(n, keys[..last], ys[..last]),
                   keys[last], xs[last], ys[last]);
      WithFieldsInjective(m, n, keys[..last], xs[..last], ys[..last]);
      assert xs == xs[..last] + [xs[last]] && ys == ys[..last] + [ys[last]];
    }
  }

  /** Nothing covered is lost: equal canonical texts mean equal covered fields, and conversely. */
  lemma CanonicalTextDeterminesCovered(c: Covered, d: Covered)
    ensures CanonicalText(c) == CanonicalText(d) <==> c == d
  {
    if CanonicalText(c) == CanonicalText(d) {
      PrintInjective(Canonical(c), Canonical(d));
      CanonicalInjective(c, d);
    }
  }

  lemma CanonicalInjective(c: Covered, d: Covered)
    requires Canonical(c) == Canonical(d)
    ensures c == d
  {
    hide CoveredBase;
    hide CarrierFields;
    hide WithFields;
    CarrierKeysDistinct();
    CoveredBaseKeys(c);
    CoveredBaseKeys(d);
    WithFieldsInjective(CoveredBase(c), CoveredBase(d), CARRIER_KEYS,
                        CarrierFields(c.carriers), CarrierFields(d.carriers));
    CarrierFieldsInjective(c.carriers, d.carriers);
    CoveredBaseInjective(c, d);
  }

  lemma CarrierFieldsInjective(a: Carriers, b: Carriers)
    requires CarrierFields(a) == CarrierFields(b)
    ensures a == b
  {
    var x, y := CarrierFields(a), CarrierFields(b);
    assert x[0] == y[0] && x[1] == y[1] && x[2] == y[2] && x[3] == y[3] && x[4] == y[4] && x[5] == y[5];
    FieldsInjective(a, b);
  }

  lemma CarrierKeysDistinct()
    ensures Distinct(CARRIER_KEYS)
  {
  }

  lemma CoveredBaseKeys(c: Covered)
    ensures forall k | k in CARRIER_KEYS :: k !in CoveredBase(c)
  {
  }
}
