/** The workflow-layer pause/resume protocol: what a captured snapshot answers at resume time, and
    what tampering with it does.  The context reader's answer and the clock are parameters. */
module PauseResumeProtocol {
  import opened Wrappers
  import opened Digests
  import opened JsonText
  import opened PauseSnapshots
  import opened SnapshotCanonicalForm
  import opened SnapshotReading
  import SnapshotCoverage

  datatype MaterialDiffPolicy = Strict | Lenient | OperatorArbitrate

  datatype ResumeResult = ResumeResult(
    resumed: bool, diffDetected: bool, diffSummaryHash: Option<string>, newRunId: Option<string>,
    failClass: Option<string>)

  const CP_FAIL_PAUSE_SNAPSHOT_CORRUPTION := "CP-FAIL-PAUSE-SNAPSHOT-CORRUPTION"
  const CP_FAIL_RESUME_MATERIAL_DIFF_DETECTED := "CP-FAIL-RESUME-MATERIAL-DIFF-DETECTED"
  const CP_FAIL_RESUME_OPERATOR_ARBITRATION_OWED := "CP-FAIL-RESUME-OPERATOR-ARBITRATION-OWED"

  const RESUME_OUTCOME_RESUMED := "resumed"
  const RESUME_OUTCOME_DIFF_ABORTED := "diff_aborted"
  const RESUME_OUTCOME_ARBITRATION_OWED := "arbitration_owed"

  predicate Corrupted(r: ResumeResult) {
    r.failClass == Some(CP_FAIL_PAUSE_SNAPSHOT_CORRUPTION)
  }

  /** The text hashed for `diff_summary_hash`. */
  function DiffSummaryText(snapshotAnchor: string, currentAnchor: string): string {
    Print(JObject(map["snapshot_anchor" := JString(snapshotAnchor), "current_anchor" := JString(currentAnchor)]))
  }

  function ExpectedHash(sha: string -> string, s: PauseSnapshot): string {
    sha(CanonicalText(CoveredPart(s)))
  }

  method CapturePauseSnapshot(
    sha: string -> string, workflowId: string, runId: string, stepIndex: int, reason: WorkflowPauseReason,
    carriers: Carriers, summary: StateSummary, anchor: string, now: int)
    returns (s: PauseSnapshot)
    ensures s == PauseSnapshot(workflowId, runId, stepIndex, reason, summary, s.snapshotHash, now, anchor, carriers)
    ensures s.snapshotHash == sha(CanonicalText(Covered(workflowId, runId, stepIndex, summary, carriers)))
    ensures s.snapshotHash == ExpectedHash(sha, s)
  {
    var hash := ComputeSnapshotHash(sha, Covered(workflowId, runId, stepIndex, summary, carriers));
    s := PauseSnapshot(workflowId, runId, stepIndex, reason, summary, hash, now, anchor, carriers);
  }

  /** The resume decision, given the anchor the context reader reports. */
  function Resumption(sha: string -> string, s: PauseSnapshot, policy: MaterialDiffPolicy, currentAnchor: string)
    : ResumeResult
  {
    if ExpectedHash(sha, s) != s.snapshotHash then
      ResumeResult(false, false, None, None, Some(CP_FAIL_PAUSE_SNAPSHOT_CORRUPTION))
    else if s.stateLedgerAnchor == currentAnchor then
      ResumeResult(true, false, None, None, None)
    else
      var summary := Some(sha(DiffSummaryText(s.stateLedgerAnchor, currentAnchor)));
      match policy
      case Strict => ResumeResult(false, true, summary, None, Some(CP_FAIL_RESUME_MATERIAL_DIFF_DETECTED))
      case OperatorArbitrate => ResumeResult(false, true, summary, None, Some(CP_FAIL_RESUME_OPERATOR_ARBITRATION_OWED))
      case Lenient => ResumeResult(true, true, summary, None, None)
  }

  method AttemptResume(sha: string -> string, s: PauseSnapshot, policy: MaterialDiffPolicy, currentAnchor: string)
    returns (r: ResumeResult)
    ensures r == Resumption(sha, s, policy, currentAnchor)
  {
    var expected := ComputeSnapshotHash(sha, CoveredPart(s));
    if expected != s.snapshotHash {
      return ResumeResult(false, false, None, None, Some(CP_FAIL_PAUSE_SNAPSHOT_CORRUPTION));
    }
    if s.stateLedgerAnchor == currentAnchor {
      return ResumeResult(true, false, None, None, None);
    }
    var diffSummaryHash := sha(DiffSummaryText(s.stateLedgerAnchor, currentAnchor));
    if policy == Strict {
      return ResumeResult(false, true, Some(diffSummaryHash), None, Some(CP_FAIL_RESUME_MATERIAL_DIFF_DETECTED));
    }
    if policy == OperatorArbitrate {
      return ResumeResult(false, true, Some(diffSummaryHash), None, Some(CP_FAIL_RESUME_OPERATOR_ARBITRATION_OWED));
    }
    r := ResumeResult(true, true, Some(diffSummaryHash), None, None);
  }

  function DeriveResumeOutcome(r: ResumeResult): string {
    if r.failClass == Some(CP_FAIL_RESUME_MATERIAL_DIFF_DETECTED) then RESUME_OUTCOME_DIFF_ABORTED
    else if r.failClass == Some(CP_FAIL_RESUME_OPERATOR_ARBITRATION_OWED) then RESUME_OUTCOME_ARBITRATION_OWED
    else RESUME_OUTCOME_RESUMED
  }

  lemma ConstantsDistinct()
    ensures CP_FAIL_PAUSE_SNAPSHOT_CORRUPTION != CP_FAIL_RESUME_MATERIAL_DIFF_DETECTED
    ensures CP_FAIL_PAUSE_SNAPSHOT_CORRUPTION != CP_FAIL_RESUME_OPERATOR_ARBITRATION_OWED
    ensures CP_FAIL_RESUME_MATERIAL_DIFF_DETECTED != CP_FAIL_RESUME_OPERATOR_ARBITRATION_OWED
    ensures RESUME_OUTCOME_RESUMED != RESUME_OUTCOME_DIFF_ABORTED
    ensures RESUME_OUTCOME_RESUMED != RESUME_OUTCOME_ARBITRATION_OWED
    ensures RESUME_OUTCOME_DIFF_ABORTED != RESUME_OUTCOME_ARBITRATION_OWED
  {
    assert CP_FAIL_PAUSE_SNAPSHOT_CORRUPTION[8] == 'P';
    assert |RESUME_OUTCOME_RESUMED| == 7 && |RESUME_OUTCOME_DIFF_ABORTED| == 12;
    assert |RESUME_OUTCOME_ARBITRATION_OWED| == 16;
    assert CP_FAIL_RESUME_MATERIAL_DIFF_DETECTED[15] == 'M' && CP_FAIL_RESUME_OPERATOR_ARBITRATION_OWED[15] == 'O';
  }

  /** Every answer and the outcome derived from it, in the texts a caller sees. */
  lemma ResumptionSpelled(sha: string -> string, s: PauseSnapshot, policy: MaterialDiffPolicy, currentAnchor: string)
    ensures var (r, outcome) := (Resumption(sha, s, policy, currentAnchor),
                                 DeriveResumeOutcome(Resumption(sha, s, policy, currentAnchor)));
            var hash := sha(CanonicalText(Covered(s.workflowId, s.runId, s.stepIndex, s.stateSummary, s.carriers)));
            var summary := Some(sha(DiffSummaryText(s.stateLedgerAnchor, currentAnchor)));
            && (hash != s.snapshotHash ==>
                  r == ResumeResult(false, false, None, None, Some("CP-FAIL-PAUSE-SNAPSHOT-CORRUPTION"))
                  && outcome == "resumed")
            && (hash == s.snapshotHash && s.stateLedgerAnchor == currentAnchor ==>
                  r == ResumeResult(true, false, None, None, None) && outcome == "resumed")
            && (hash == s.snapshotHash && s.stateLedgerAnchor != currentAnchor && policy == Lenient ==>
                  r == ResumeResult(true, true, summary, None, None) && outcome == "resumed")
            && (hash == s.snapshotHash && s.stateLedgerAnchor != currentAnchor && policy == Strict ==>
                  r == ResumeResult(false, true, summary, None, Some("CP-FAIL-RESUME-MATERIAL-DIFF-DETECTED"))
                  && outcome == "diff_aborted")
            && (hash == s.snapshotHash && s.stateLedgerAnchor != currentAnchor && policy == OperatorArbitrate ==>
                  r == ResumeResult(false, true, summary, None, Some("CP-FAIL-RESUME-OPERATOR-ARBITRATION-OWED"))
                  && outcome == "arbitration_owed")
  {
    hide CanonicalText;
    hide DiffSummaryText;
    ConstantsDistinct();
  }

  // ---------------------------------------------------------------- capture, then resume

  /** An untampered snapshot is never reported corrupt; whether it resumes depends on the anchors and
      the policy alone, and the reported outcome names the reason. */
  lemma CapturedSnapshotResumes(
    sha: string -> string, s: PauseSnapshot, policy: MaterialDiffPolicy, currentAnchor: string)
    requires s.snapshotHash == ExpectedHash(sha, s)
    ensures var r := Resumption(sha, s, policy, currentAnchor);
            && !Corrupted(r)
            && (r.diffDetected <==> s.stateLedgerAnchor != currentAnchor)
            && (r.resumed <==> s.stateLedgerAnchor == currentAnchor || policy == Lenient)
            && r.newRunId.None?
            && r.diffSummaryHash
               == (if r.diffDetected then Some(sha(DiffSummaryText(s.stateLedgerAnchor, currentAnchor))) else None)
            && (r.failClass.None? <==> r.resumed)
            && (DeriveResumeOutcome(r) == RESUME_OUTCOME_RESUMED <==> r.resumed)
            && (DeriveResumeOutcome(r) == RESUME_OUTCOME_DIFF_ABORTED <==> r.diffDetected && policy == Strict)
            && (DeriveResumeOutcome(r) == RESUME_OUTCOME_ARBITRATION_OWED
                <==> r.diffDetected && policy == OperatorArbitrate)
  {
    hide ExpectedHash;
    hide DiffSummaryText;
    ConstantsDistinct();
  }

  /** The derived outcome reports `resumed` truthfully except for a corrupt snapshot, for which it
      says "resumed" of a workflow that was not: callers must test for corruption first. */
  lemma OutcomeTruthfulIff(sha: string -> string, s: PauseSnapshot, policy: MaterialDiffPolicy, currentAnchor: string)
    ensures var r := Resumption(sha, s, policy, currentAnchor);
            (DeriveResumeOutcome(r) == RESUME_OUTCOME_RESUMED) == r.resumed <==> s.snapshotHash == ExpectedHash(sha, s)
  {
    ConstantsDistinct();
  }

  /** Any snapshot under a hash that is not its own: reported corrupt, not resumed, and yet derived as
      "resumed" by a caller that does not look at the fail class first. */
  lemma CorruptSnapshotDerivedAsResumed(sha: string -> string, s: PauseSnapshot, policy: MaterialDiffPolicy,
                                        currentAnchor: string)
    ensures var t := s.(snapshotHash := ExpectedHash(sha, s) + "0");
            var r := Resumption(sha, t, policy, currentAnchor);
            Corrupted(r) && !r.resumed && DeriveResumeOutcome(r) == RESUME_OUTCOME_RESUMED
  {
    hide CanonicalText;
    hide DiffSummaryText;
    ConstantsDistinct();
    var t := s.(snapshotHash := ExpectedHash(sha, s) + "0");
    assert CoveredPart(t) == CoveredPart(s);
    assert |t.snapshotHash| == |ExpectedHash(sha, s)| + 1;
  }

  // ---------------------------------------------------------------- tampering

  /** Put any other content under a captured hash: as long as the two canonical texts do not collide,
      resume reports corruption, for every policy and every current anchor and before any diff is looked
      at, exactly when something covered changed, at whatever depth of nesting. */
  lemma TamperingDetectedIff(
    sha: string -> string, s: PauseSnapshot, t: PauseSnapshot, policy: MaterialDiffPolicy, currentAnchor: string)
    requires s.snapshotHash == ExpectedHash(sha, s) && t.snapshotHash == s.snapshotHash
    ensures var r := Resumption(sha, t, policy, currentAnchor);
            && (Corrupted(r) ==> !r.resumed && !r.diffDetected && r.diffSummaryHash.None?)
            && (Collide(sha, CanonicalText(CoveredPart(s)), CanonicalText(CoveredPart(t)))
                || (Corrupted(r) <==> CoveredPart(t) != CoveredPart(s)))
  {
    hide CanonicalText;
    hide DiffSummaryText;
    ConstantsDistinct();
    SnapshotCoverage.CanonicalTextDeterminesCovered(CoveredPart(s), CoveredPart(t));
  }

  /** Replacing the snapshot of a paused child, however deep in it the change lies, changes what the
      parent's hash covers. */
  lemma ChildTamperingIsCovered(s: PauseSnapshot, i: nat, child: PauseSnapshot)
    requires s.carriers.fanOut.Some? && i < |s.carriers.fanOut.value.pausedChildren|
    requires child != s.carriers.fanOut.value.pausedChildren[i].childSnapshot
    ensures CanonicalText(CoveredPart(WithChild(s, i, child))) != CanonicalText(CoveredPart(s))
  {
    hide CanonicalText;
    var kids := s.carriers.fanOut.value.pausedChildren;
    var t := WithChild(s, i, child);
    assert t.carriers.fanOut.value.pausedChildren[i].childSnapshot == child;
    SnapshotCoverage.CanonicalTextDeterminesCovered(CoveredPart(s), CoveredPart(t));
  }

  function WithChild(s: PauseSnapshot, i: nat, child: PauseSnapshot): PauseSnapshot
    requires s.carriers.fanOut.Some? && i < |s.carriers.fanOut.value.pausedChildren|
  {
    var f := s.carriers.fanOut.value;
    var g := f.(pausedChildren := f.pausedChildren[i := f.pausedChildren[i].(childSnapshot := child)]);
    s.(carriers := s.carriers.(fanOut := Some(g)))
  }

  /** A JSON reader finds the snapshot's anchor and the current one, each under its own key, and no more. */
  lemma DiffSummaryReads(snapshotAnchor: string, currentAnchor: string)
    ensures var read := ReadValue(DiffSummaryText(snapshotAnchor, currentAnchor));
            && read.Some? && read.value.1 == ""
            && HasKeys(read.value.0, {"snapshot_anchor", "current_anchor"}, {})
            && HasText(read.value.0, "snapshot_anchor", snapshotAnchor)
            && HasText(read.value.0, "current_anchor", currentAnchor)
            && DiffSummaryText(snapshotAnchor, currentAnchor) == Print(read.value.0, true)
  {
    var j := JObject(map["snapshot_anchor" := JString(snapshotAnchor), "current_anchor" := JString(currentAnchor)]);
    hide Print;
    hide ReadValue;
    EndsNowhere();
    PrintReadsBack(j, "", true);
    assert DiffSummaryText(snapshotAnchor, currentAnchor) == Print(j, true) + "";
  }

  /** Equal diff summaries mean the same pair of anchors, or a collision. */
  lemma DiffSummaryBinds(sha: string -> string, a: string, b: string, c: string, d: string)
    requires sha(DiffSummaryText(a, b)) == sha(DiffSummaryText(c, d))
    ensures (a == c && b == d) || Collide(sha, DiffSummaryText(a, b), DiffSummaryText(c, d))
  {
    hide Print;
    if DiffSummaryText(a, b) == DiffSummaryText(c, d) {
      var x := JObject(map["snapshot_anchor" := JString(a), "current_anchor" := JString(b)]);
      var y := JObject(map["snapshot_anchor" := JString(c), "current_anchor" := JString(d)]);
      PrintInjective(x, y);
      assert x.members["snapshot_anchor"] == y.members["snapshot_anchor"];
      assert x.members["current_anchor"] == y.members["current_anchor"];
    }
  }
}
