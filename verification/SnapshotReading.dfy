/** What a JSON reader finds in the text under `snapshot_hash`: which value stands under which key, which
    keys are there at all, and the same inside every nested child snapshot. */
module SnapshotReading {
  import opened Wrappers
  import opened JsonText
  import opened PauseSnapshots
  import opened Scanning
  import opened Sequences
  import opened SnapshotCanonicalForm

  // ---------------------------------------------------------------- reading objects

  /** An object that has all of `always`, and nothing outside `always` and `sometimes`. */
  predicate HasKeys(j: Json, always: set<string>, sometimes: set<string>) {
    j.JObject? && always <= j.members.Keys <= always + sometimes
  }

  predicate HasText(j: Json, k: string, s: string) {
    j.JObject? && k in j.members && j.members[k] == JString(s)
  }

  predicate HasInt(j: Json, k: string, n: int) {
    j.JObject? && k in j.members && j.members[k] == JInt(n)
  }

  predicate HasObject(j: Json, k: string, m: Payload) {
    j.JObject? && k in j.members && j.members[k] == JObject(m)
  }

  predicate HasNull(j: Json, k: string) {
    j.JObject? && k in j.members && j.members[k] == JNull
  }

  predicate Lacks(j: Json, k: string) {
    j.JObject? && k !in j.members
  }

  /** Under `k`, a list with one item for each of `xs`, in order. */
  predicate HasList<T>(j: Json, k: string, xs: seq<T>, isItem: (Json, T) -> bool) {
    && j.JObject? && k in j.members && j.members[k].JArray?
    && |j.members[k].items| == |xs|
    && forall i | 0 <= i < |xs| :: isItem(j.members[k].items[i], xs[i])
  }

  predicate HasValue<T>(j: Json, k: string, x: T, isValue: (Json, T) -> bool) {
    j.JObject? && k in j.members && isValue(j.members[k], x)
  }

  // ---------------------------------------------------------------- the state summary

  predicate IsEntryRef(j: Json, e: LedgerEntryRef) {
    && HasKeys(j, {"action_id", "entry_hash", "actor"}, {})
    && HasText(j, "action_id", e.actionId)
    && HasText(j, "entry_hash", e.entryHash)
    && HasText(j, "actor", e.actor)
  }

  predicate IsReference(j: Json, r: ExternalReference) {
    && HasKeys(j, {"reference_class", "reference_id", "snapshot_capture_at_pause"}, {})
    && HasText(j, "reference_id", r.referenceId)
    && (r.snapshotCaptureAtPause.None? ==> HasNull(j, "snapshot_capture_at_pause"))
    && (r.snapshotCaptureAtPause.Some? ==> HasText(j, "snapshot_capture_at_pause", r.snapshotCaptureAtPause.value))
    && (r.referenceClass.F2LedgerEntry? ==> HasText(j, "reference_class", "f2_ledger_entry"))
    && (r.referenceClass.ExternalMcpResource? ==> HasText(j, "reference_class", "external_mcp_resource"))
    && (r.referenceClass.FilesystemState? ==> HasText(j, "reference_class", "filesystem_state"))
    && (r.referenceClass.FailedAttemptsHistory? ==> HasText(j, "reference_class", "failed_attempts_history"))
  }

  predicate IsSummary(j: Json, s: StateSummary) {
    && HasKeys(j, {"relevant_entries", "summary_text", "summary_hash", "idempotency_key", "external_references"}, {})
    && HasList(j, "relevant_entries", s.relevantEntries, IsEntryRef)
    && HasText(j, "summary_text", s.summaryText)
    && HasText(j, "summary_hash", s.summaryHash)
    && HasText(j, "idempotency_key", s.idempotencyKey)
    && HasList(j, "external_references", s.externalReferences, IsReference)
  }

  // ---------------------------------------------------------------- the carriers

  predicate IsBranch(j: Json, b: TerminalBranch) {
    && HasKeys(j, {"branch_index", "step_id", "terminal_status", "output"}, {})
    && HasInt(j, "branch_index", b.branchIndex)
    && HasText(j, "step_id", b.stepId)
    && HasText(j, "terminal_status", b.terminalStatus)
    && (b.output.None? ==> HasNull(j, "output"))
    && (b.output.Some? ==> HasObject(j, "output", b.output.value))
  }

  predicate IsFenced(j: Json, b: FencedBranch) {
    && HasKeys(j, {"branch_index", "step_id", "step_kind", "idempotency_key"}, {})
    && HasInt(j, "branch_index", b.branchIndex)
    && HasText(j, "step_id", b.stepId)
    && HasText(j, "step_kind", b.stepKind)
    && HasText(j, "idempotency_key", b.idempotencyKey)
  }

  predicate IsStage(j: Json, s: HandoffStage) {
    && HasKeys(j, {"stage_index", "step_id", "output"}, {})
    && HasInt(j, "stage_index", s.stageIndex)
    && HasText(j, "step_id", s.stepId)
    && HasObject(j, "output", s.output)
  }

  predicate IsHandoff(j: Json, h: HandoffResume) {
    && HasKeys(j, {"completed_stages", "stage_count"}, {})
    && HasList(j, "completed_stages", h.completedStages, IsStage)
    && HasInt(j, "stage_count", h.stageCount)
  }

  predicate IsLoopStep(j: Json, s: LoopStep) {
    && HasKeys(j, {"entry_index", "declared_step_index", "step_id", "output"}, {})
    && HasInt(j, "entry_index", s.entryIndex)
    && HasInt(j, "declared_step_index", s.declaredStepIndex)
    && HasText(j, "step_id", s.stepId)
    && HasObject(j, "output", s.output)
  }

  predicate IsEvaluatorOptimizer(j: Json, e: EvaluatorOptimizerResume) {
    && HasKeys(j, {"completed_steps"}, {})
    && HasList(j, "completed_steps", e.completedSteps, IsLoopStep)
  }

  predicate IsEffectFence(j: Json, e: EffectFenceResume) {
    && HasKeys(j, {"idempotency_key"}, {})
    && HasText(j, "idempotency_key", e.idempotencyKey)
  }

  predicate IsOrchestratorFence(j: Json, o: OrchestratorFenceResume) {
    && HasKeys(j, {"idempotency_key", "step_id", "step_kind"}, {})
    && HasText(j, "idempotency_key", o.idempotencyKey)
    && HasText(j, "step_id", o.stepId)
    && HasText(j, "step_kind", o.stepKind)
  }

  /** The two additive fields are there exactly when they are set. */
  predicate IsAdditive(j: Json, synthesisStepId: Option<string>, fenced: seq<FencedBranch>) {
    && (synthesisStepId.None? ==> Lacks(j, "synthesis_step_id"))
    && (synthesisStepId.Some? ==> HasText(j, "synthesis_step_id", synthesisStepId.value))
    && (fenced == [] ==> Lacks(j, "effect_fence_paused_branches"))
    && (fenced != [] ==> HasList(j, "effect_fence_paused_branches", fenced, IsFenced))
  }

  predicate IsPeer(j: Json, p: PeerFanOutResume) {
    && HasKeys(j, {"branches", "branch_count"}, {"synthesis_step_id", "effect_fence_paused_branches"})
    && HasList(j, "branches", p.branches, IsBranch)
    && HasInt(j, "branch_count", p.branchCount)
    && IsAdditive(j, p.synthesisStepId, p.fencedBranches)
  }

  predicate IsFanOutHead(j: Json, f: FanOutResume) {
    && HasObject(j, "orchestrator_output", f.orchestratorOutput)
    && HasText(j, "orchestrator_step_id", f.orchestratorStepId)
    && HasList(j, "branches", f.branches, IsBranch)
    && HasInt(j, "worker_count", f.workerCount)
  }

  /** An empty list of paused children is written inside a child snapshot only. */
  predicate IsFanOut(j: Json, f: FanOutResume, outermost: bool)
    decreases f, 1
  {
    && HasKeys(j, {"orchestrator_output", "orchestrator_step_id", "branches", "worker_count"},
               {"paused_child_branches", "synthesis_step_id", "effect_fence_paused_branches"})
    && IsFanOutHead(j, f)
    && IsAdditive(j, f.synthesisStepId, f.fencedBranches)
    && ("paused_child_branches" in j.members <==> !outermost || f.pausedChildren != [])
    && ("paused_child_branches" in j.members ==> AreChildren(j.members["paused_child_branches"], f.pausedChildren))
  }

  predicate AreChildren(j: Json, cs: seq<PausedChild>)
    decreases cs, 0
  {
    j.JArray? && |j.items| == |cs| && forall i | 0 <= i < |cs| :: IsChild(j.items[i], cs[i])
  }

  predicate IsChild(j: Json, c: PausedChild)
    decreases c, 1
  {
    && HasKeys(j, {"branch_index", "step_id", "child_snapshot"}, {})
    && HasInt(j, "branch_index", c.branchIndex)
    && HasText(j, "step_id", c.stepId)
    && IsSnapshot(j.members["child_snapshot"], c.childSnapshot)
  }

  predicate IsPauseReason(j: Json, r: WorkflowPauseReason) {
    && (r.ExplicitOperator? ==> HasText(j, "pause_reason", "explicit_operator"))
    && (r.HitlPending? ==> HasText(j, "pause_reason", "hitl_pending"))
    && (r.ValidatorEscalation? ==> HasText(j, "pause_reason", "validator_escalation"))
    && (r.TimeoutBoundary? ==> HasText(j, "pause_reason", "timeout_boundary"))
    && (r.ExternalDependency? ==> HasText(j, "pause_reason", "external_dependency"))
    && (r.EffectFenceAmbiguous? ==> HasText(j, "pause_reason", "effect_fence_ambiguous"))
  }

  /** A child snapshot is written whole: every carrier but the last has its key, null when unset. */
  predicate IsSnapshot(j: Json, s: PauseSnapshot)
    decreases s, 1
  {
    var r := s.carriers;
    && HasKeys(j, {"workflow_id", "run_id", "step_index", "pause_reason", "state_summary", "snapshot_hash",
                   "created_at", "state_ledger_anchor", "handoff_resume", "evaluator_optimizer_resume",
                   "effect_fence_resume", "fan_out_resume", "peer_fan_out_resume"},
               {"orchestrator_effect_fence_resume"})
    && IsSnapshotHead(j, s)
    && AreWrittenCarriers(j, r)
    && (r.fanOut.None? ==> HasNull(j, "fan_out_resume"))
    && (r.fanOut.Some? ==> IsFanOut(j.members["fan_out_resume"], r.fanOut.value, false))
    && (r.peerFanOut.None? ==> HasNull(j, "peer_fan_out_resume"))
    && (r.peerFanOut.Some? ==> HasValue(j, "peer_fan_out_resume", r.peerFanOut.value, IsPeer))
    && (r.orchestratorFence.None? ==> Lacks(j, "orchestrator_effect_fence_resume"))
    && (r.orchestratorFence.Some? ==>
          HasValue(j, "orchestrator_effect_fence_resume", r.orchestratorFence.value, IsOrchestratorFence))
  }

  predicate IsSnapshotHead(j: Json, s: PauseSnapshot) {
    && HasText(j, "workflow_id", s.workflowId)
    && HasText(j, "run_id", s.runId)
    && HasInt(j, "step_index", s.stepIndex)
    && IsPauseReason(j, s.pauseReason)
    && HasValue(j, "state_summary", s.stateSummary, IsSummary)
    && HasText(j, "snapshot_hash", s.snapshotHash)
    && HasInt(j, "created_at", s.createdAt)
    && HasText(j, "state_ledger_anchor", s.stateLedgerAnchor)
  }

  predicate AreWrittenCarriers(j: Json, r: Carriers) {
    && (r.handoff.None? ==> HasNull(j, "handoff_resume"))
    && (r.handoff.Some? ==> HasValue(j, "handoff_resume", r.handoff.value, IsHandoff))
    && (r.evaluatorOptimizer.None? ==> HasNull(j, "evaluator_optimizer_resume"))
    && (r.evaluatorOptimizer.Some? ==>
          HasValue(j, "evaluator_optimizer_resume", r.evaluatorOptimizer.value, IsEvaluatorOptimizer))
    && (r.effectFence.None? ==> HasNull(j, "effect_fence_resume"))
    && (r.effectFence.Some? ==> HasValue(j, "effect_fence_resume", r.effectFence.value, IsEffectFence))
  }

  // ---------------------------------------------------------------- the hashed dictionary

  predicate IsHashedBase(j: Json, c: Covered) {
    && HasText(j, "workflow_id", c.workflowId)
    && HasText(j, "run_id", c.runId)
    && HasInt(j, "step_index", c.stepIndex)
    && HasValue(j, "state_summary", c.stateSummary, IsSummary)
  }

  predicate AreHashedCarriers(j: Json, r: Carriers) {
    && HasIfSet(j, "fan_out_resume", r.fanOut, (v: Json, f: FanOutResume) => IsFanOut(v, f, true))
    && HasIfSet(j, "peer_fan_out_resume", r.peerFanOut, IsPeer)
    && HasIfSet(j, "handoff_resume", r.handoff, IsHandoff)
    && HasIfSet(j, "evaluator_optimizer_resume", r.evaluatorOptimizer, IsEvaluatorOptimizer)
    && HasIfSet(j, "effect_fence_resume", r.effectFence, IsEffectFence)
    && HasIfSet(j, "orchestrator_effect_fence_resume", r.orchestratorFence, IsOrchestratorFence)
  }

  /** Outermost, a carrier has its key exactly when it is set. */
  predicate IsHashed(j: Json, c: Covered) {
    && HasKeys(j, {"workflow_id", "run_id", "step_index", "state_summary"},
               {"fan_out_resume", "peer_fan_out_resume", "handoff_resume", "evaluator_optimizer_resume",
                "effect_fence_resume", "orchestrator_effect_fence_resume"})
    && IsHashedBase(j, c)
    && AreHashedCarriers(j, c.carriers)
  }

  predicate HasIfSet<T>(j: Json, k: string, o: Option<T>, isValue: (Json, T) -> bool) {
    match o
    case None => Lacks(j, k)
    case Some(x) => HasValue(j, k, x, isValue)
  }

  // ---------------------------------------------------------------- the dumps read so

  lemma EntryRefReads(e: LedgerEntryRef)
    ensures IsEntryRef(DumpEntryRef(e), e)
  {
  }

  lemma ReferenceReads(r: ExternalReference)
    ensures IsReference(DumpReference(r), r)
  {
  }

  lemma SummaryReads(s: StateSummary)
    ensures IsSummary(DumpSummary(s), s)
  {
    hide IsEntryRef;
    hide IsReference;
    hide DumpEntryRef;
    hide DumpReference;
    forall i | 0 <= i < |s.relevantEntries|
      ensures IsEntryRef(DumpEntryRef(s.relevantEntries[i]), s.relevantEntries[i])
    {
      EntryRefReads(s.relevantEntries[i]);
    }
    forall i | 0 <= i < |s.externalReferences|
      ensures IsReference(DumpReference(s.externalReferences[i]), s.externalReferences[i])
    {
      ReferenceReads(s.externalReferences[i]);
    }
  }

  lemma BranchReads(b: TerminalBranch)
    ensures IsBranch(DumpTerminal(b), b)
  {
  }

  lemma FencedReads(b: FencedBranch)
    ensures IsFenced(DumpFenced(b), b)
  {
  }

  lemma StageReads(s: HandoffStage)
    ensures IsStage(DumpStage(s), s)
  {
  }

  lemma LoopStepReads(s: LoopStep)
    ensures IsLoopStep(DumpLoopStep(s), s)
  {
  }

  lemma HandoffReads(h: HandoffResume)
    ensures IsHandoff(DumpHandoff(h), h)
  {
    hide IsStage;
    hide DumpStage;
    forall i | 0 <= i < |h.completedStages| ensures IsStage(DumpStage(h.completedStages[i]), h.completedStages[i]) {
      StageReads(h.completedStages[i]);
    }
  }

  lemma EvaluatorOptimizerReads(e: EvaluatorOptimizerResume)
    ensures IsEvaluatorOptimizer(DumpEvaluatorOptimizer(e), e)
  {
    hide IsLoopStep;
    hide DumpLoopStep;
    forall i | 0 <= i < |e.completedSteps| ensures IsLoopStep(DumpLoopStep(e.completedSteps[i]), e.completedSteps[i]) {
      LoopStepReads(e.completedSteps[i]);
    }
  }

  lemma OrchestratorFenceReads(o: OrchestratorFenceResume)
    ensures IsOrchestratorFence(DumpOrchestratorFence(o), o)
  {
  }

  lemma FencedListReads(bs: seq<FencedBranch>)
    ensures var js := MapSeq(DumpFenced, bs); forall i | 0 <= i < |bs| :: IsFenced(js[i], bs[i])
  {
    hide IsFenced;
    hide DumpFenced;
    forall i | 0 <= i < |bs| ensures IsFenced(DumpFenced(bs[i]), bs[i]) { FencedReads(bs[i]); }
  }

  lemma BranchListReads(bs: seq<TerminalBranch>)
    ensures var js := MapSeq(DumpTerminal, bs); forall i | 0 <= i < |bs| :: IsBranch(js[i], bs[i])
  {
    hide IsBranch;
    hide DumpTerminal;
    forall i | 0 <= i < |bs| ensures IsBranch(DumpTerminal(bs[i]), bs[i]) { BranchReads(bs[i]); }
  }

  /** `j` has every entry of `m`. */
  predicate Extends(j: Json, m: map<string, Json>) {
    j.JObject? && forall k | k in m :: k in j.members && j.members[k] == m[k]
  }

  lemma AdditiveReads(base: map<string, Json>, synthesisStepId: Option<string>, fenced: seq<FencedBranch>)
    requires base.Keys !! {"synthesis_step_id", "effect_fence_paused_branches"}
    ensures var j := JObject(base + AdditiveForm(synthesisStepId, fenced));
            && IsAdditive(j, synthesisStepId, fenced)
            && HasKeys(j, base.Keys, {"synthesis_step_id", "effect_fence_paused_branches"})
            && Extends(j, base)
  {
    hide IsFenced;
    FencedListReads(fenced);
  }

  lemma PeerBaseHolds(p: PeerFanOutResume)
    ensures var m := PeerBase(p);
            && m.Keys == {"branches", "branch_count"}
            && m["branches"] == JArray(MapSeq(DumpTerminal, p.branches)) && m["branch_count"] == JInt(p.branchCount)
            && m.Keys !! {"synthesis_step_id", "effect_fence_paused_branches"}
  {
    hide MapSeq;
  }

  lemma PeerReads(p: PeerFanOutResume)
    ensures IsPeer(CanonicalPeer(p), p)
  {
    hide PeerBase;
    hide IsBranch;
    hide IsAdditive;
    hide AdditiveForm;
    hide MapSeq;
    var j, base := CanonicalPeer(p), PeerBase(p);
    PeerBaseHolds(p);
    AdditiveReads(base, p.synthesisStepId, p.fencedBranches);
    BranchListReads(p.branches);
    assert "branches" in base && "branch_count" in base;
  }

  lemma FanOutBaseHolds(f: FanOutResume)
    ensures var m := FanOutBase(f);
            && m.Keys == {"orchestrator_output", "orchestrator_step_id", "branches", "worker_count"}
            && m["orchestrator_output"] == JObject(f.orchestratorOutput)
            && m["orchestrator_step_id"] == JString(f.orchestratorStepId)
            && m["branches"] == JArray(MapSeq(DumpTerminal, f.branches))
            && m["worker_count"] == JInt(f.workerCount)
  {
    hide MapSeq;
  }

  lemma FanOutHeadReads(j: Json, f: FanOutResume)
    requires Extends(j, FanOutBase(f))
    ensures IsFanOutHead(j, f)
  {
    hide FanOutBase;
    hide IsBranch;
    hide MapSeq;
    FanOutBaseHolds(f);
    BranchListReads(f.branches);
    var m := FanOutBase(f);
    assert "orchestrator_output" in m && "orchestrator_step_id" in m && "branches" in m && "worker_count" in m;
  }

  lemma OptReads(m: map<string, Json>, k: string, o: Option<Json>)
    requires k !in m
    ensures var n := m + Opt(k, o);
            && (k in n <==> o.Some?) && (o.Some? ==> n[k] == o.value)
            && m.Keys <= n.Keys <= m.Keys + {k} && Extends(JObject(n), m)
  {
  }

  lemma ExtendsTransitive(j: Json, n: map<string, Json>, m: map<string, Json>)
    requires Extends(j, n) && Extends(JObject(n), m)
    ensures Extends(j, m)
  {
  }

  lemma {:induction false} FanOutReads(f: FanOutResume, outermost: bool)
    ensures IsFanOut(CanonicalFanOut(f, outermost), f, outermost)
    decreases f, 1
  {
    hide *;
    var kids := if outermost && f.pausedChildren == [] then None else Some(JArray(CanonicalChildren(f.pausedChildren)));
    ChildrenRead(f.pausedChildren);
    FanOutBaseHolds(f);
    CanonicalFanOutIs(f, outermost, kids);
    forall j | Extends(j, FanOutBase(f)) ensures IsFanOutHead(j, f) { FanOutHeadReads(j, f); }
    FanOutPartsRead(f, outermost, FanOutBase(f), kids);
  }

  lemma CanonicalFanOutIs(f: FanOutResume, outermost: bool, kids: Option<Json>)
    requires kids
          == if outermost && f.pausedChildren == [] then None else Some(JArray(CanonicalChildren(f.pausedChildren)))
    ensures CanonicalFanOut(f, outermost)
         == JObject(FanOutBase(f) + Opt("paused_child_branches", kids)
                    + AdditiveForm(f.synthesisStepId, f.fencedBranches))
  {
    hide CanonicalChildren;
    hide AdditiveForm;
    hide FanOutBase;
  }

  lemma FanOutPartsRead(f: FanOutResume, outermost: bool, m: map<string, Json>, kids: Option<Json>)
    requires m.Keys == {"orchestrator_output", "orchestrator_step_id", "branches", "worker_count"}
    requires forall j | Extends(j, m) :: IsFanOutHead(j, f)
    requires kids.Some? <==> !outermost || f.pausedChildren != []
    requires kids.Some? ==> AreChildren(kids.value, f.pausedChildren)
    ensures var j := JObject(m + Opt("paused_child_branches", kids)
                             + AdditiveForm(f.synthesisStepId, f.fencedBranches));
            IsFanOut(j, f, outermost)
  {
    hide *;
    var base := m + Opt("paused_child_branches", kids);
    var j := JObject(base + AdditiveForm(f.synthesisStepId, f.fencedBranches));
    FanOutKeys();
    OptReads(m, "paused_child_branches", kids);
    AdditiveReads(base, f.synthesisStepId, f.fencedBranches);
    ExtendsTransitive(j, base, m);
    FanOutIs(j, base, f, outermost);
  }

  lemma FanOutKeys()
    ensures {"orchestrator_output", "orchestrator_step_id", "branches", "worker_count"}
         !! {"paused_child_branches", "synthesis_step_id", "effect_fence_paused_branches"}
  {
  }

  /** `base` fills up from `always`, and `j` from `base`. */
  lemma KeysWiden(j: Json, always: set<string>, base: map<string, Json>, k: string, more: set<string>)
    requires always <= base.Keys <= always + {k} && k !in always && k !in more
    requires HasKeys(j, base.Keys, more) && Extends(j, base)
    ensures HasKeys(j, always, {k} + more)
    ensures k in j.members <==> k in base
    ensures k in base ==> j.members[k] == base[k]
  {
  }

  lemma FanOutIs(j: Json, base: map<string, Json>, f: FanOutResume, outermost: bool)
    requires {"orchestrator_output", "orchestrator_step_id", "branches", "worker_count"} <= base.Keys
    requires base.Keys
          <= {"orchestrator_output", "orchestrator_step_id", "branches", "worker_count"} + {"paused_child_branches"}
    requires HasKeys(j, base.Keys, {"synthesis_step_id", "effect_fence_paused_branches"}) && Extends(j, base)
    requires IsFanOutHead(j, f) && IsAdditive(j, f.synthesisStepId, f.fencedBranches)
    requires "paused_child_branches" in base <==> !outermost || f.pausedChildren != []
    requires "paused_child_branches" in base ==> AreChildren(base["paused_child_branches"], f.pausedChildren)
    ensures IsFanOut(j, f, outermost)
  {
    hide *;
    FanOutKeys();
    FanOutMoreKeys();
    KeysWiden(j, {"orchestrator_output", "orchestrator_step_id", "branches", "worker_count"}, base,
              "paused_child_branches", {"synthesis_step_id", "effect_fence_paused_branches"});
    FanOutOf(j, f, outermost);
  }

  lemma FanOutMoreKeys()
    ensures "paused_child_branches" !in {"synthesis_step_id", "effect_fence_paused_branches"}
    ensures {"paused_child_branches"} + {"synthesis_step_id", "effect_fence_paused_branches"}
         == {"paused_child_branches", "synthesis_step_id", "effect_fence_paused_branches"}
    ensures "paused_child_branches" !in {"orchestrator_output", "orchestrator_step_id", "branches", "worker_count"}
  {
  }

  lemma FanOutOf(j: Json, f: FanOutResume, outermost: bool)
    requires HasKeys(j, {"orchestrator_output", "orchestrator_step_id", "branches", "worker_count"},
                     {"paused_child_branches", "synthesis_step_id", "effect_fence_paused_branches"})
    requires IsFanOutHead(j, f) && IsAdditive(j, f.synthesisStepId, f.fencedBranches)
    requires "paused_child_branches" in j.members <==> !outermost || f.pausedChildren != []
    requires "paused_child_branches" in j.members ==>
               AreChildren(j.members["paused_child_branches"], f.pausedChildren)
    ensures IsFanOut(j, f, outermost)
  {
    hide HasKeys;
    hide IsFanOutHead;
    hide IsAdditive;
    hide AreChildren;
  }

  lemma {:induction false} ChildrenRead(cs: seq<PausedChild>)
    ensures AreChildren(JArray(CanonicalChildren(cs)), cs)
    decreases cs, 0
  {
    hide IsChild;
    hide CanonicalChild;
    if cs != [] {
      ChildReads(cs[0]);
      ChildrenRead(cs[1..]);
      var js, tail := CanonicalChildren(cs), CanonicalChildren(cs[1..]);
      forall i | 0 <= i < |cs| ensures IsChild(js[i], cs[i]) {
        if i > 0 { assert js[i] == tail[i - 1] && cs[i] == cs[1..][i - 1]; }
      }
    }
  }

  lemma {:induction false} ChildReads(c: PausedChild)
    ensures IsChild(CanonicalChild(c), c)
    decreases c, 1
  {
    hide IsSnapshot;
    hide CanonicalSnapshot;
    SnapshotReads(c.childSnapshot);
  }

  lemma PauseReasonReads(m: map<string, Json>, r: WorkflowPauseReason)
    requires "pause_reason" in m && m["pause_reason"] == JString(PauseReasonText(r))
    ensures IsPauseReason(JObject(m), r)
  {
  }

  const HEAD_KEYS := {
    "workflow_id", "run_id", "step_index", "pause_reason", "state_summary", "snapshot_hash", "created_at",
    "state_ledger_anchor", "handoff_resume", "evaluator_optimizer_resume", "effect_fence_resume"}

  lemma SnapshotHeadKeys(s: PauseSnapshot)
    ensures SnapshotHead(s).Keys == HEAD_KEYS
  {
    hide DumpSummary;
    hide DumpHandoff;
    hide DumpEvaluatorOptimizer;
    hide DumpEffectFence;
    hide PauseReasonText;
  }

  /** Eleven values under the eleven keys. */
  lemma ElevenHold(a: Json, b: Json, c: Json, d: Json, e: Json, f: Json, g: Json, h: Json, i: Json, j: Json, k: Json)
    ensures var m := map["workflow_id" := a, "run_id" := b, "step_index" := c, "pause_reason" := d,
                         "state_summary" := e, "snapshot_hash" := f, "created_at" := g, "state_ledger_anchor" := h,
                         "handoff_resume" := i, "evaluator_optimizer_resume" := j, "effect_fence_resume" := k];
            m["workflow_id"] == a && m["run_id"] == b && m["step_index"] == c && m["pause_reason"] == d
  {
    hide *;
  }

  lemma ElevenHoldMore(
    a: Json, b: Json, c: Json, d: Json, e: Json, f: Json, g: Json, h: Json, i: Json, j: Json, k: Json)
    ensures var m := map["workflow_id" := a, "run_id" := b, "step_index" := c, "pause_reason" := d,
                         "state_summary" := e, "snapshot_hash" := f, "created_at" := g, "state_ledger_anchor" := h,
                         "handoff_resume" := i, "evaluator_optimizer_resume" := j, "effect_fence_resume" := k];
            m["state_summary"] == e && m["snapshot_hash"] == f && m["created_at"] == g && m["state_ledger_anchor"] == h
  {
    hide *;
  }

  lemma SnapshotHeadIs(s: PauseSnapshot, i: Json, j: Json, k: Json)
    requires var r := s.carriers;
             && i == (if r.handoff.None? then JNull else DumpHandoff(r.handoff.value))
             && j == (if r.evaluatorOptimizer.None? then JNull else DumpEvaluatorOptimizer(r.evaluatorOptimizer.value))
             && k == (if r.effectFence.None? then JNull else DumpEffectFence(r.effectFence.value))
    ensures SnapshotHead(s)
         == map["workflow_id" := JString(s.workflowId), "run_id" := JString(s.runId), "step_index" := JInt(s.stepIndex),
                "pause_reason" := JString(PauseReasonText(s.pauseReason)),
                "state_summary" := DumpSummary(s.stateSummary), "snapshot_hash" := JString(s.snapshotHash),
                "created_at" := JInt(s.createdAt), "state_ledger_anchor" := JString(s.stateLedgerAnchor),
                "handoff_resume" := i, "evaluator_optimizer_resume" := j, "effect_fence_resume" := k]
  {
    hide DumpSummary;
    hide DumpHandoff;
    hide DumpEvaluatorOptimizer;
    hide DumpEffectFence;
    hide PauseReasonText;
  }

  lemma SnapshotHeadHolds(s: PauseSnapshot)
    ensures var m := SnapshotHead(s);
            && HEAD_KEYS <= m.Keys
            && m["workflow_id"] == JString(s.workflowId) && m["run_id"] == JString(s.runId)
            && m["step_index"] == JInt(s.stepIndex) && m["pause_reason"] == JString(PauseReasonText(s.pauseReason))
            && m["state_summary"] == DumpSummary(s.stateSummary) && m["snapshot_hash"] == JString(s.snapshotHash)
            && m["created_at"] == JInt(s.createdAt) && m["state_ledger_anchor"] == JString(s.stateLedgerAnchor)
  {
    SnapshotHeadKeys(s);
    hide DumpHandoff;
    hide DumpEvaluatorOptimizer;
    hide DumpEffectFence;
    hide DumpSummary;
    hide SnapshotHead;
    hide PauseReasonText;
    var r := s.carriers;
    var i := if r.handoff.None? then JNull else DumpHandoff(r.handoff.value);
    var j := if r.evaluatorOptimizer.None? then JNull else DumpEvaluatorOptimizer(r.evaluatorOptimizer.value);
    var k := if r.effectFence.None? then JNull else DumpEffectFence(r.effectFence.value);
    SnapshotHeadIs(s, i, j, k);
    ElevenHold(JString(s.workflowId), JString(s.runId), JInt(s.stepIndex), JString(PauseReasonText(s.pauseReason)),
               DumpSummary(s.stateSummary), JString(s.snapshotHash), JInt(s.createdAt), JString(s.stateLedgerAnchor),
               i, j, k);
    ElevenHoldMore(JString(s.workflowId), JString(s.runId), JInt(s.stepIndex), JString(PauseReasonText(s.pauseReason)),
                   DumpSummary(s.stateSummary), JString(s.snapshotHash), JInt(s.createdAt),
                   JString(s.stateLedgerAnchor), i, j, k);
  }

  lemma SnapshotHeadReads(j: Json, s: PauseSnapshot)
    requires Extends(j, SnapshotHead(s))
    ensures IsSnapshotHead(j, s)
  {
    hide DumpSummary;
    hide SnapshotHead;
    hide PauseReasonText;
    hide IsPauseReason;
    hide IsSummary;
    SnapshotHeadHolds(s);
    SummaryReads(s.stateSummary);
    var m := SnapshotHead(s);
    assert "workflow_id" in m && "run_id" in m && "step_index" in m && "pause_reason" in m;
    assert "state_summary" in m && "snapshot_hash" in m && "created_at" in m && "state_ledger_anchor" in m;
    PauseReasonReads(j.members, s.pauseReason);
  }

  lemma WrittenCarriersRead(j: Json, s: PauseSnapshot)
    requires Extends(j, SnapshotHead(s))
    ensures AreWrittenCarriers(j, s.carriers)
  {
    hide DumpSummary;
    hide DumpHandoff;
    hide DumpEvaluatorOptimizer;
    hide DumpEffectFence;
    hide PauseReasonText;
    hide IsHandoff;
    hide IsEvaluatorOptimizer;
    hide IsEffectFence;
    var r, m := s.carriers, SnapshotHead(s);
    assert "handoff_resume" in m && "evaluator_optimizer_resume" in m && "effect_fence_resume" in m;
    if r.handoff.Some? { HandoffReads(r.handoff.value); }
    if r.evaluatorOptimizer.Some? { EvaluatorOptimizerReads(r.evaluatorOptimizer.value); }
    if r.effectFence.Some? { EffectFenceReads(r.effectFence.value); }
  }

  lemma EffectFenceReads(e: EffectFenceResume)
    ensures IsEffectFence(DumpEffectFence(e), e)
  {
  }

  /** Two entries always written after `m`, and one written when set. */
  lemma ThreeMoreRead(m: map<string, Json>, kf: string, x: Json, kp: string, y: Json, ko: string, o: Option<Json>)
    requires kf !in m && kp !in m && ko !in m && kf != kp && kf != ko && kp != ko
    ensures var j := JObject(m + map[kf := x] + map[kp := y] + Opt(ko, o));
            && Extends(j, m)
            && kf in j.members && j.members[kf] == x && kp in j.members && j.members[kp] == y
            && (ko in j.members <==> o.Some?) && (o.Some? ==> j.members[ko] == o.value)
            && HasKeys(j, m.Keys + {kf, kp}, {ko})
  {
    hide *;
    var first, second := m + map[kf := x], m + map[kf := x] + map[kp := y];
    var j := JObject(second + Opt(ko, o));
    OneMoreRead(m, kf, x);
    OneMoreRead(first, kp, y);
    OptReads(second, ko, o);
    ExtendsTransitive(j, second, first);
    ExtendsTransitive(j, first, m);
    ExtendsAt(j, second, kp);
    ExtendsAt(j, first, kf);
    KeysAre(j, second, m.Keys + {kf, kp}, {ko});
  }

  lemma OneMoreRead(m: map<string, Json>, k: string, v: Json)
    requires k !in m
    ensures var n := m + map[k := v]; n.Keys == m.Keys + {k} && n[k] == v && Extends(JObject(n), m)
  {
  }

  lemma ExtendsAt(j: Json, n: map<string, Json>, k: string)
    requires Extends(j, n) && k in n
    ensures j.JObject? && k in j.members && j.members[k] == n[k]
  {
  }

  lemma ExtendsKeys(j: Json, m: map<string, Json>)
    requires Extends(j, m)
    ensures j.JObject? && m.Keys <= j.members.Keys
  {
  }

  lemma KeysAre(j: Json, n: map<string, Json>, always: set<string>, sometimes: set<string>)
    requires j.JObject? && n.Keys == always && n.Keys <= j.members.Keys <= n.Keys + sometimes
    ensures HasKeys(j, always, sometimes)
  {
  }

  lemma {:induction false} SnapshotReads(s: PauseSnapshot)
    ensures IsSnapshot(CanonicalSnapshot(s), s)
    decreases s, 1
  {
    hide *;
    var r, m := s.carriers, SnapshotHead(s);
    var x := if r.fanOut.None? then JNull else CanonicalFanOut(r.fanOut.value, false);
    var y := if r.peerFanOut.None? then JNull else CanonicalPeer(r.peerFanOut.value);
    var o := if r.orchestratorFence.None? then None else Some(DumpOrchestratorFence(r.orchestratorFence.value));
    if r.fanOut.Some? { FanOutReads(r.fanOut.value, false); }
    if r.peerFanOut.Some? { PeerReads(r.peerFanOut.value); }
    if r.orchestratorFence.Some? { OrchestratorFenceReads(r.orchestratorFence.value); }
    CanonicalSnapshotIs(s, x, y, o);
    SnapshotHeadKeys(s);
    CarrierKeysApart();
    ThreeMoreRead(m, "fan_out_resume", x, "peer_fan_out_resume", y, "orchestrator_effect_fence_resume", o);
    SnapshotHeadReads(CanonicalSnapshot(s), s);
    WrittenCarriersRead(CanonicalSnapshot(s), s);
    SnapshotIs(CanonicalSnapshot(s), s, m);
  }

  lemma CanonicalSnapshotIs(s: PauseSnapshot, x: Json, y: Json, o: Option<Json>)
    requires var r := s.carriers;
             && x == (if r.fanOut.None? then JNull else CanonicalFanOut(r.fanOut.value, false))
             && y == (if r.peerFanOut.None? then JNull else CanonicalPeer(r.peerFanOut.value))
             && o == if r.orchestratorFence.None? then None else Some(DumpOrchestratorFence(r.orchestratorFence.value))
    ensures CanonicalSnapshot(s)
         == JObject(SnapshotHead(s) + map["fan_out_resume" := x] + map["peer_fan_out_resume" := y]
                    + Opt("orchestrator_effect_fence_resume", o))
  {
    hide CanonicalFanOut;
    hide CanonicalPeer;
    hide DumpOrchestratorFence;
    hide SnapshotHead;
  }

  lemma CarrierKeysApart()
    ensures HEAD_KEYS !! {"fan_out_resume", "peer_fan_out_resume", "orchestrator_effect_fence_resume"}
    ensures "fan_out_resume" != "peer_fan_out_resume"
    ensures "orchestrator_effect_fence_resume" !in {"fan_out_resume", "peer_fan_out_resume"}
  {
  }

  lemma SnapshotIs(j: Json, s: PauseSnapshot, m: map<string, Json>)
    requires m.Keys == HEAD_KEYS && IsSnapshotHead(j, s) && AreWrittenCarriers(j, s.carriers)
    requires HasKeys(j, m.Keys + {"fan_out_resume", "peer_fan_out_resume"}, {"orchestrator_effect_fence_resume"})
    requires var r := s.carriers;
             && (if r.fanOut.None? then j.members["fan_out_resume"] == JNull
                 else IsFanOut(j.members["fan_out_resume"], r.fanOut.value, false))
             && (if r.peerFanOut.None? then j.members["peer_fan_out_resume"] == JNull
                 else IsPeer(j.members["peer_fan_out_resume"], r.peerFanOut.value))
             && ("orchestrator_effect_fence_resume" in j.members <==> r.orchestratorFence.Some?)
             && (r.orchestratorFence.Some? ==>
                   IsOrchestratorFence(j.members["orchestrator_effect_fence_resume"], r.orchestratorFence.value))
    ensures IsSnapshot(j, s)
  {
    hide IsFanOut;
    hide IsPeer;
    hide IsOrchestratorFence;
    hide IsSnapshotHead;
    hide AreWrittenCarriers;
  }

  // ---------------------------------------------------------------- the hashed text reads so

  /** A field is under its key exactly when it is set, and everything else stays as it was. */
  lemma {:induction false} WithFieldsRead(m: map<string, Json>, keys: seq<string>, fields: seq<Option<Json>>)
    requires |keys| == |fields| && Distinct(keys) && forall i | 0 <= i < |keys| :: keys[i] !in m
    ensures var n := WithFields(m, keys, fields);
            && Extends(JObject(n), m)
            && (forall k | k in n :: k in m || k in keys)
            && forall i | 0 <= i < |keys| :: FieldRead(n, keys[i], fields[i])
  {
    hide *;
    WithFieldsUnfold(m, keys, fields);
    var n := WithFields(m, keys, fields);
    if keys == [] {
      ExtendsItself(m);
    } else {
      var last := |keys| - 1;
      var front := WithFields(m, keys[..last], fields[..last]);
      DistinctFront(keys);
      WithFieldsRead(m, keys[..last], fields[..last]);
      assert keys[last] !in front;
      OptReads(front, keys[last], fields[last]);
      ExtendsTransitive(JObject(n), front, m);
      LastFieldRead(n, keys[last], fields[last]);
      forall i | 0 <= i < |keys| ensures FieldRead(n, keys[i], fields[i]) {
        if i < last {
          assert keys[i] == keys[..last][i] && fields[i] == fields[..last][i];
          FieldKept(front, n, keys[last], keys[i], fields[i]);
        }
      }
      assert forall k | k in n :: k in m || k in keys;
    }
  }

  lemma WithFieldsUnfold(m: map<string, Json>, keys: seq<string>, fields: seq<Option<Json>>)
    requires |keys| == |fields|
    ensures keys == [] ==> WithFields(m, keys, fields) == m
    ensures keys != [] ==>
              var last := |keys| - 1;
              WithFields(m, keys, fields)
              == WithFields(m, keys[..last], fields[..last]) + Opt(keys[last], fields[last])
  {
    hide Opt;
  }

  lemma ExtendsItself(m: map<string, Json>)
    ensures Extends(JObject(m), m)
  {
  }

  lemma DistinctFront(keys: seq<string>)
    requires keys != [] && Distinct(keys)
    ensures Distinct(keys[..|keys| - 1]) && keys[|keys| - 1] !in keys[..|keys| - 1]
    ensures forall i | 0 <= i < |keys| - 1 :: keys[i] != keys[|keys| - 1]
  {
  }

  lemma LastFieldRead(n: map<string, Json>, k: string, o: Option<Json>)
    requires (k in n <==> o.Some?) && (o.Some? ==> n[k] == o.value)
    ensures FieldRead(n, k, o)
  {
  }

  lemma FieldKept(front: map<string, Json>, n: map<string, Json>, last: string, k: string, o: Option<Json>)
    requires FieldRead(front, k, o) && k != last && n.Keys <= front.Keys + {last} && Extends(JObject(n), front)
    ensures FieldRead(n, k, o)
  {
  }

  predicate FieldRead(n: map<string, Json>, k: string, o: Option<Json>) {
    (k in n <==> o.Some?) && (o.Some? ==> n[k] == o.value)
  }

  lemma CoveredBaseHolds(c: Covered)
    ensures var m := CoveredBase(c);
            && m.Keys == {"workflow_id", "run_id", "step_index", "state_summary"}
            && m["workflow_id"] == JString(c.workflowId) && m["run_id"] == JString(c.runId)
            && m["step_index"] == JInt(c.stepIndex) && m["state_summary"] == DumpSummary(c.stateSummary)
  {
    hide DumpSummary;
  }

  lemma CoveredBaseReads(j: Json, c: Covered)
    requires Extends(j, CoveredBase(c))
    ensures IsHashedBase(j, c)
  {
    hide CoveredBase;
    hide DumpSummary;
    hide IsSummary;
    SummaryReads(c.stateSummary);
    CoveredBaseHolds(c);
    var m := CoveredBase(c);
    assert "workflow_id" in m && "run_id" in m && "step_index" in m && "state_summary" in m;
  }

  lemma CarrierKeysFit()
    ensures Distinct(CARRIER_KEYS)
    ensures forall i | 0 <= i < |CARRIER_KEYS| ::
              CARRIER_KEYS[i] !in {"workflow_id", "run_id", "step_index", "state_summary"}
    ensures forall k | k in CARRIER_KEYS ::
              k in {"fan_out_resume", "peer_fan_out_resume", "handoff_resume", "evaluator_optimizer_resume",
                    "effect_fence_resume", "orchestrator_effect_fence_resume"}
  {
  }

  lemma CanonicalReads(c: Covered)
    ensures IsHashed(Canonical(c), c)
  {
    hide *;
    var m, fields := CoveredBase(c), CarrierFields(c.carriers);
    var n := WithFields(m, CARRIER_KEYS, fields);
    CarrierKeysFit();
    CoveredBaseHolds(c);
    WithFieldsRead(m, CARRIER_KEYS, fields);
    CoveredBaseReads(JObject(n), c);
    ExtendsKeys(JObject(n), m);
    CanonicalIs(c);
    CarriersRead(n, c.carriers);
    HashedIs(JObject(n), c);
  }

  lemma CanonicalIs(c: Covered)
    ensures Canonical(c) == JObject(WithFields(CoveredBase(c), CARRIER_KEYS, CarrierFields(c.carriers)))
  {
  }

  lemma CarriersRead(n: map<string, Json>, r: Carriers)
    requires forall i | 0 <= i < |CARRIER_KEYS| :: FieldRead(n, CARRIER_KEYS[i], CarrierFields(r)[i])
    ensures AreHashedCarriers(JObject(n), r)
  {
    hide *;
    CarrierKeysAre();
    CarrierFieldsAre(r);
    if r.fanOut.Some? { FanOutReads(r.fanOut.value, true); }
    if r.peerFanOut.Some? { PeerReads(r.peerFanOut.value); }
    if r.handoff.Some? { HandoffReads(r.handoff.value); }
    if r.evaluatorOptimizer.Some? { EvaluatorOptimizerReads(r.evaluatorOptimizer.value); }
    if r.effectFence.Some? { EffectFenceReads(r.effectFence.value); }
    if r.orchestratorFence.Some? { OrchestratorFenceReads(r.orchestratorFence.value); }
    SixFieldsRead(n, CarrierFields(r), r);
  }

  lemma SixFieldsRead(n: map<string, Json>, fields: seq<Option<Json>>, r: Carriers)
    requires |fields| == 6
    requires FieldRead(n, "fan_out_resume", fields[0]) && FieldRead(n, "peer_fan_out_resume", fields[1])
    requires FieldRead(n, "handoff_resume", fields[2]) && FieldRead(n, "evaluator_optimizer_resume", fields[3])
    requires FieldRead(n, "effect_fence_resume", fields[4])
    requires FieldRead(n, "orchestrator_effect_fence_resume", fields[5])
    requires (fields[0].Some? <==> r.fanOut.Some?) && (fields[1].Some? <==> r.peerFanOut.Some?)
    requires (fields[2].Some? <==> r.handoff.Some?) && (fields[3].Some? <==> r.evaluatorOptimizer.Some?)
    requires (fields[4].Some? <==> r.effectFence.Some?) && (fields[5].Some? <==> r.orchestratorFence.Some?)
    requires r.fanOut.Some? ==> IsFanOut(fields[0].value, r.fanOut.value, true)
    requires r.peerFanOut.Some? ==> IsPeer(fields[1].value, r.peerFanOut.value)
    requires r.handoff.Some? ==> IsHandoff(fields[2].value, r.handoff.value)
    requires r.evaluatorOptimizer.Some? ==> IsEvaluatorOptimizer(fields[3].value, r.evaluatorOptimizer.value)
    requires r.effectFence.Some? ==> IsEffectFence(fields[4].value, r.effectFence.value)
    requires r.orchestratorFence.Some? ==> IsOrchestratorFence(fields[5].value, r.orchestratorFence.value)
    ensures AreHashedCarriers(JObject(n), r)
  {
    hide IsFanOut;
    hide IsPeer;
    hide IsHandoff;
    hide IsEvaluatorOptimizer;
    hide IsEffectFence;
    hide IsOrchestratorFence;
  }

  lemma HashedIs(j: Json, c: Covered)
    requires j.JObject? && IsHashedBase(j, c) && AreHashedCarriers(j, c.carriers)
    requires {"workflow_id", "run_id", "step_index", "state_summary"} <= j.members.Keys
    requires forall k | k in j.members ::
               k in {"workflow_id", "run_id", "step_index", "state_summary"}
               || k in {"fan_out_resume", "peer_fan_out_resume", "handoff_resume", "evaluator_optimizer_resume",
                        "effect_fence_resume", "orchestrator_effect_fence_resume"}
    ensures IsHashed(j, c)
  {
    hide IsHashedBase;
    hide AreHashedCarriers;
  }

  /** A JSON reader takes the hashed text whole and finds exactly the covered fields, each under its own
      key, at every depth of nesting. */
  lemma HashedTextReads(c: Covered)
    ensures var read := ReadValue(CanonicalText(c));
            && read.Some? && read.value.1 == "" && IsHashed(read.value.0, c)
            && CanonicalText(c) == Print(read.value.0, true)
  {
    hide *;
    CanonicalReads(c);
    CanonicalTextIs(c);
    EndsNowhere();
    PrintReadsBack(Canonical(c), "", true);
    assert Print(Canonical(c), true) + "" == Print(Canonical(c), true);
  }

  lemma CanonicalTextIs(c: Covered)
    ensures CanonicalText(c) == Print(Canonical(c), true)
  {
    hide Print;
  }

  lemma EndsNowhere()
    ensures Ends(IsNumberChar, "")
  {
  }
}
