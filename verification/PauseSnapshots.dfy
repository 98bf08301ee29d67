/** The workflow-layer pause snapshot, its JSON dump, and what the path-aware strip of default-valued
    additive fields leaves of that dump. */
module PauseSnapshots {
  import opened Wrappers
  import opened JsonText

  // ---------------------------------------------------------------- records

  /** `Mapping[str, Any]`, already in JSON form. */
  type Payload = map<string, Json>

  datatype ReferenceClass = F2LedgerEntry | ExternalMcpResource | FilesystemState | FailedAttemptsHistory

  datatype LedgerEntryRef = LedgerEntryRef(actionId: string, entryHash: string, actor: string)

  datatype ExternalReference = ExternalReference(
    referenceClass: ReferenceClass, referenceId: string, snapshotCaptureAtPause: Option<string>)

  datatype StateSummary = StateSummary(
    relevantEntries: seq<LedgerEntryRef>, summaryText: string, summaryHash: string,
    idempotencyKey: string, externalReferences: seq<ExternalReference>)

  datatype WorkflowPauseReason =
    | ExplicitOperator | HitlPending | ValidatorEscalation | TimeoutBoundary
    | ExternalDependency | EffectFenceAmbiguous

  datatype TerminalBranch = TerminalBranch(
    branchIndex: int, stepId: string, terminalStatus: string, output: Option<Payload>)

  datatype FencedBranch = FencedBranch(
    branchIndex: int, stepId: string, stepKind: string, idempotencyKey: string)

  datatype FanOutResume = FanOutResume(
    orchestratorOutput: Payload, orchestratorStepId: string, branches: seq<TerminalBranch>,
    workerCount: int, pausedChildren: seq<PausedChild>, synthesisStepId: Option<string>,
    fencedBranches: seq<FencedBranch>)

  datatype PeerFanOutResume = PeerFanOutResume(
    branches: seq<TerminalBranch>, branchCount: int, synthesisStepId: Option<string>,
    fencedBranches: seq<FencedBranch>)

  datatype HandoffStage = HandoffStage(stageIndex: int, stepId: string, output: Payload)

  datatype HandoffResume = HandoffResume(completedStages: seq<HandoffStage>, stageCount: int)

  datatype LoopStep = LoopStep(entryIndex: int, declaredStepIndex: int, stepId: string, output: Payload)

  datatype EvaluatorOptimizerResume = EvaluatorOptimizerResume(completedSteps: seq<LoopStep>)

  datatype EffectFenceResume = EffectFenceResume(idempotencyKey: string)

  datatype OrchestratorFenceResume = OrchestratorFenceResume(
    idempotencyKey: string, stepId: string, stepKind: string)

  datatype PauseSnapshot = PauseSnapshot(
    workflowId: string, runId: string, stepIndex: int, pauseReason: WorkflowPauseReason,
    stateSummary: StateSummary, snapshotHash: string, createdAt: int, stateLedgerAnchor: string,
    carriers: Carriers)

  /** The six optional resume carriers of a snapshot. */
  datatype Carriers = Carriers(
    fanOut: Option<FanOutResume>, peerFanOut: Option<PeerFanOutResume>, handoff: Option<HandoffResume>,
    evaluatorOptimizer: Option<EvaluatorOptimizerResume>, effectFence: Option<EffectFenceResume>,
    orchestratorFence: Option<OrchestratorFenceResume>)

  datatype PausedChild = PausedChild(branchIndex: int, stepId: string, childSnapshot: PauseSnapshot)

  /** Everything `snapshot_hash` covers. */
  datatype Covered = Covered(
    workflowId: string, runId: string, stepIndex: int, stateSummary: StateSummary, carriers: Carriers)

  function CoveredPart(s: PauseSnapshot): Covered {
    Covered(s.workflowId, s.runId, s.stepIndex, s.stateSummary, s.carriers)
  }

  // ---------------------------------------------------------------- model_dump(mode="json")

  function MapSeq<T>(f: T -> Json, xs: seq<T>): (js: seq<Json>)
    ensures |js| == |xs| && forall i | 0 <= i < |xs| :: js[i] == f(xs[i])
  {
    seq(|xs|, i requires 0 <= i < |xs| => f(xs[i]))
  }

  function OptString(o: Option<string>): Json {
    if o.None? then JNull else JString(o.value)
  }

  function OptPayload(o: Option<Payload>): Json {
    if o.None? then JNull else JObject(o.value)
  }

  function ReferenceClassText(c: ReferenceClass): string {
    match c
    case F2LedgerEntry => "f2_ledger_entry"
    case ExternalMcpResource => "external_mcp_resource"
    case FilesystemState => "filesystem_state"
    case FailedAttemptsHistory => "failed_attempts_history"
  }

  function PauseReasonText(r: WorkflowPauseReason): string {
    match r
    case ExplicitOperator => "explicit_operator"
    case HitlPending => "hitl_pending"
    case ValidatorEscalation => "validator_escalation"
    case TimeoutBoundary => "timeout_boundary"
    case ExternalDependency => "external_dependency"
    case EffectFenceAmbiguous => "effect_fence_ambiguous"
  }

  function DumpEntryRef(e: LedgerEntryRef): Json {
    JObject(map["action_id" := JString(e.actionId), "entry_hash" := JString(e.entryHash), "actor" := JString(e.actor)])
  }

  function DumpReference(r: ExternalReference): Json {
    JObject(map["reference_class" := JString(ReferenceClassText(r.referenceClass)),
                "reference_id" := JString(r.referenceId),
                "snapshot_capture_at_pause" := OptString(r.snapshotCaptureAtPause)])
  }

  function DumpSummary(s: StateSummary): Json {
    JObject(map["relevant_entries" := JArray(MapSeq(DumpEntryRef, s.relevantEntries)),
                "summary_text" := JString(s.summaryText),
                "summary_hash" := JString(s.summaryHash),
                "idempotency_key" := JString(s.idempotencyKey),
                "external_references" := JArray(MapSeq(DumpReference, s.externalReferences))])
  }

  function DumpTerminal(b: TerminalBranch): Json {
    JObject(map["branch_index" := JInt(b.branchIndex), "step_id" := JString(b.stepId),
                "terminal_status" := JString(b.terminalStatus), "output" := OptPayload(b.output)])
  }

  function DumpFenced(b: FencedBranch): Json {
    JObject(map["branch_index" := JInt(b.branchIndex), "step_id" := JString(b.stepId),
                "step_kind" := JString(b.stepKind), "idempotency_key" := JString(b.idempotencyKey)])
  }

  function DumpStage(s: HandoffStage): Json {
    JObject(map["stage_index" := JInt(s.stageIndex), "step_id" := JString(s.stepId), "output" := JObject(s.output)])
  }

  function DumpHandoff(h: HandoffResume): Json {
    JObject(map["completed_stages" := JArray(MapSeq(DumpStage, h.completedStages)),
                "stage_count" := JInt(h.stageCount)])
  }

  function DumpLoopStep(s: LoopStep): Json {
    JObject(map["entry_index" := JInt(s.entryIndex), "declared_step_index" := JInt(s.declaredStepIndex),
                "step_id" := JString(s.stepId), "output" := JObject(s.output)])
  }

  function DumpEvaluatorOptimizer(e: EvaluatorOptimizerResume): Json {
    JObject(map["completed_steps" := JArray(MapSeq(DumpLoopStep, e.completedSteps))])
  }

  function DumpEffectFence(e: EffectFenceResume): Json {
    JObject(map["idempotency_key" := JString(e.idempotencyKey)])
  }

  function DumpOrchestratorFence(o: OrchestratorFenceResume): Json {
    JObject(map["idempotency_key" := JString(o.idempotencyKey), "step_id" := JString(o.stepId),
                "step_kind" := JString(o.stepKind)])
  }

  function PeerBase(p: PeerFanOutResume): map<string, Json> {
    map["branches" := JArray(MapSeq(DumpTerminal, p.branches)), "branch_count" := JInt(p.branchCount)]
  }

  function FanOutBase(f: FanOutResume): map<string, Json> {
    map["orchestrator_output" := JObject(f.orchestratorOutput),
        "orchestrator_step_id" := JString(f.orchestratorStepId),
        "branches" := JArray(MapSeq(DumpTerminal, f.branches)),
        "worker_count" := JInt(f.workerCount)]
  }

  /** The two additive fields both fan-out carriers share; a dump always writes them. */
  function AdditiveDump(synthesisStepId: Option<string>, fenced: seq<FencedBranch>): map<string, Json> {
    map["synthesis_step_id" := OptString(synthesisStepId),
        "effect_fence_paused_branches" := JArray(MapSeq(DumpFenced, fenced))]
  }

  function DumpPeer(p: PeerFanOutResume): Json {
    JObject(PeerBase(p) + AdditiveDump(p.synthesisStepId, p.fencedBranches))
  }

  function DumpFanOut(f: FanOutResume): (j: Json)
    ensures j.JObject?
    decreases f, 1
  {
    JObject(FanOutBase(f) + map["paused_child_branches" := JArray(DumpChildren(f.pausedChildren))]
            + AdditiveDump(f.synthesisStepId, f.fencedBranches))
  }

  function DumpChildren(cs: seq<PausedChild>): (js: seq<Json>)
    decreases cs, 0
  {
    if cs == [] then [] else [DumpChild(cs[0])] + DumpChildren(cs[1..])
  }

  function DumpChild(c: PausedChild): Json
    decreases c, 1
  {
    JObject(map["branch_index" := JInt(c.branchIndex), "step_id" := JString(c.stepId),
                "child_snapshot" := DumpSnapshot(c.childSnapshot)])
  }

  function DumpSnapshot(s: PauseSnapshot): (j: Json)
    ensures j.JObject?
    decreases s, 1
  {
    var r := s.carriers;
    JObject(SnapshotHead(s)
            + map["fan_out_resume" := if r.fanOut.None? then JNull else DumpFanOut(r.fanOut.value)]
            + map["peer_fan_out_resume" := if r.peerFanOut.None? then JNull else DumpPeer(r.peerFanOut.value)]
            + map["orchestrator_effect_fence_resume" :=
                    if r.orchestratorFence.None? then JNull else DumpOrchestratorFence(r.orchestratorFence.value)])
  }

  /** The eleven fields of a dumped snapshot that nothing ever removes or rewrites. */
  function SnapshotHead(s: PauseSnapshot): map<string, Json> {
    map["workflow_id" := JString(s.workflowId),
        "run_id" := JString(s.runId),
        "step_index" := JInt(s.stepIndex),
        "pause_reason" := JString(PauseReasonText(s.pauseReason)),
        "state_summary" := DumpSummary(s.stateSummary),
        "snapshot_hash" := JString(s.snapshotHash),
        "created_at" := JInt(s.createdAt),
        "state_ledger_anchor" := JString(s.stateLedgerAnchor),
        "handoff_resume" := if s.carriers.handoff.None? then JNull else DumpHandoff(s.carriers.handoff.value),
        "evaluator_optimizer_resume" :=
          if s.carriers.evaluatorOptimizer.None? then JNull
          else DumpEvaluatorOptimizer(s.carriers.evaluatorOptimizer.value),
        "effect_fence_resume" :=
          if s.carriers.effectFence.None? then JNull else DumpEffectFence(s.carriers.effectFence.value)]
  }

  // ---------------------------------------------------------------- the strip

  /** Python truthiness of a JSON value, negated. */
  predicate Falsy(j: Json) {
    match j
    case JNull => true
    case JBool(b) => !b
    case JInt(n) => n == 0
    case JFloat(r) => r == "0.0" || r == "-0.0"
    case JString(s) => s == ""
    case JArray(items) => items == []
    case JObject(members) => members == map[]
  }

  lemma FalsyValues(j: Json)
    ensures Falsy(j) <==> || j == JNull || j == JBool(false) || j == JInt(0) || j == JString("")
                          || (j.JFloat? && (j.repr == "0.0" || j.repr == "-0.0"))
                          || j == JArray([]) || j == JObject(map[])
  {
  }

  function PopIfNull(m: map<string, Json>, k: string): map<string, Json> {
    if k in m && m[k].JNull? then m - {k} else m
  }

  function PopIfFalsy(m: map<string, Json>, k: string): map<string, Json> {
    if k in m && Falsy(m[k]) then m - {k} else m
  }

  /** What the path-aware strip leaves of a carrier dump. */
  function StripCarrier(j: Json): Json
    decreases j, 1
  {
    if !j.JObject? then j
    else
      var m := PopIfFalsy(PopIfNull(j.members, "synthesis_step_id"), "effect_fence_paused_branches");
      if "paused_child_branches" in m && m["paused_child_branches"].JArray? then
        assert "paused_child_branches" in j.members;
        JObject(m["paused_child_branches" := JArray(StripChildren(j.members["paused_child_branches"].items))])
      else JObject(m)
  }

  function StripChildren(items: seq<Json>): (out: seq<Json>)
    ensures |out| == |items|
    decreases items, 0
  {
    if items == [] then [] else [StripChild(items[0])] + StripChildren(items[1..])
  }

  function StripChild(j: Json): Json
    decreases j, 1
  {
    if j.JObject? && "child_snapshot" in j.members && j.members["child_snapshot"].JObject?
    then JObject(j.members["child_snapshot" := StripSnapshot(j.members["child_snapshot"])])
    else j
  }

  function StripSnapshot(j: Json): Json
    requires j.JObject?
    decreases j, 1
  {
    var m := PopIfNull(j.members, "orchestrator_effect_fence_resume");
    var m1 := if "fan_out_resume" in m then m["fan_out_resume" := StripCarrier(j.members["fan_out_resume"])] else m;
    var m2 := if "peer_fan_out_resume" in m1
              then m1["peer_fan_out_resume" := StripCarrier(j.members["peer_fan_out_resume"])] else m1;
    JObject(m2)
  }
}
