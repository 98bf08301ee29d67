/** The engine-layer pause/resume substrate: a store of pause events keyed by workflow, its answers
    over every sequence of calls, and the scoped binding the free functions go through. */
module EnginePauseSubstrate {
  import opened Wrappers
  import opened PauseSnapshots
  import opened Digests
  import opened Separators
  import opened Sequences
  import opened Substrings
  import IdempotencyKeys

  // ---------------------------------------------------------------- records

  datatype PauseReason =
    | HitlInvocationPending | CrossDeploymentBridgingArcPause | OperatorInitiatedPause | EngineNativePause

  function PauseReasonValue(r: PauseReason): string {
    match r
    case HitlInvocationPending => "hitl-invocation-pending"
    case CrossDeploymentBridgingArcPause => "cross-deployment-bridging-arc-pause"
    case OperatorInitiatedPause => "operator-initiated-pause"
    case EngineNativePause => "engine-native-pause"
  }

  datatype PauseEvent = PauseEvent(
    pausedAt: string, pauseReason: PauseReason, stateSummary: StateSummary,
    externalRefsCaptured: seq<ExternalReference>, pauseAuditEntryId: string)

  datatype ResumeAttempt = ResumeAttempt(pausedWorkflowId: string, resumeAt: string, actor: string)

  datatype MaterialDiff = MaterialDiff(
    reference: ExternalReference, priorSnapshot: seq<bv8>, currentValue: seq<bv8>, isMaterial: bool)

  datatype ResumeOutcomeKind = ResumeClean | ResumeAfterRevalidation | AbortRevalidationFailed | AbortSnapshotCorrupted

  datatype ResumeOutcome = ResumeOutcome(
    kind: ResumeOutcomeKind, materialDiff: seq<MaterialDiff>, contextRevalidated: bool,
    resumeAuditEntryId: Option<string>)

  /** The injected callables, as pure functions; an absent optional one is `None`. */
  datatype Providers = Providers(
    sha: string -> string,
    diff: (PauseEvent, ResumeAttempt) -> seq<MaterialDiff>,
    revalidated: (ResumeAttempt, seq<MaterialDiff>) -> bool,
    pauseAudit: Option<(string, PauseReason) -> string>,
    resumeAudit: Option<(ResumeAttempt, ResumeOutcomeKind) -> Option<string>>)

  // ---------------------------------------------------------------- single answers

  predicate AnyMaterial(diff: seq<MaterialDiff>) {
    exists i | 0 <= i < |diff| :: diff[i].isMaterial
  }

  function ClassifyResume(diff: seq<MaterialDiff>, revalidated: bool): ResumeOutcomeKind {
    if !AnyMaterial(diff) then ResumeClean
    else if revalidated then ResumeAfterRevalidation
    else AbortRevalidationFailed
  }

  function AuditText(workflowId: string, reason: PauseReason, summaryHash: string): string {
    IdempotencyKeys.Join([workflowId, PauseReasonValue(reason), summaryHash])
  }

  function EventFor(p: Providers, workflowId: string, reason: PauseReason, summary: StateSummary, now: string)
    : PauseEvent
  {
    PauseEvent(now, reason, summary, summary.externalReferences,
               if p.pauseAudit.Some? then p.pauseAudit.value(workflowId, reason)
               else p.sha(AuditText(workflowId, reason, summary.summaryHash)))
  }

  function OutcomeFor(p: Providers, event: Option<PauseEvent>, attempt: ResumeAttempt): ResumeOutcome {
    if event.None? then ResumeOutcome(AbortSnapshotCorrupted, [], false, None)
    else
      var diff := p.diff(event.value, attempt);
      var kind := ClassifyResume(diff, p.revalidated(attempt, diff));
      ResumeOutcome(kind, diff, kind == ResumeAfterRevalidation,
                    if p.resumeAudit.Some? then p.resumeAudit.value(attempt, kind) else None)
  }

  // ---------------------------------------------------------------- histories

  datatype Call =
    | Capture(workflowId: string, reason: PauseReason, summary: StateSummary, now: string)
    | Resume(attempt: ResumeAttempt)

  /** The last event captured for `w` in a history, found by looking back through it. */
  function LatestCapture(p: Providers, history: seq<Call>, w: string): Option<PauseEvent> {
    if history == [] then None
    else
      var last := history[|history| - 1];
      if last.Capture? && last.workflowId == w
      then Some(EventFor(p, w, last.reason, last.summary, last.now))
      else LatestCapture(p, history[..|history| - 1], w)
  }

  predicate CapturedIn(history: seq<Call>, w: string) {
    exists i | 0 <= i < |history| :: history[i].Capture? && history[i].workflowId == w
  }

  class DeterministicEnginePauseResumeSubstrate {
    const providers: Providers
    var pauseEvents: map<string, PauseEvent>
    ghost var history: seq<Call>

    /** The store answers for each workflow with its latest capture, and for no other workflow. */
    ghost predicate Valid()
      reads this
    {
      forall w: string ::
        LatestCapture(providers, history, w) == if w in pauseEvents then Some(pauseEvents[w]) else None
    }

    constructor (providers: Providers)
      ensures Valid() && this.providers == providers && pauseEvents == map[] && history == []
    {
      this.providers := providers;
      pauseEvents := map[];
      history := [];
    }

    method CapturePauseSnapshot(workflowId: string, reason: PauseReason, summary: StateSummary, now: string)
      returns (event: PauseEvent)
      requires Valid()
      modifies this
      ensures Valid()
      ensures event == EventFor(providers, workflowId, reason, summary, now)
      ensures event == PauseEvent(now, reason, summary, summary.externalReferences, event.pauseAuditEntryId)
      ensures LatestCapture(providers, history, workflowId) == Some(event)
      ensures history == old(history) + [Capture(workflowId, reason, summary, now)]
      ensures pauseEvents == old(pauseEvents)[workflowId := event]
    {
      var auditId;
      match providers.pauseAudit {
        case Some(provider) => auditId := provider(workflowId, reason);
        case None =>
          auditId := providers.sha(IdempotencyKeys.Join([workflowId, PauseReasonValue(reason), summary.summaryHash]));
      }
      event := PauseEvent(now, reason, summary, summary.externalReferences, auditId);
      pauseEvents := pauseEvents[workflowId := event];
      history := history + [Capture(workflowId, reason, summary, now)];
      assert history[..|history| - 1] == old(history);
    }

    method AttemptResume(attempt: ResumeAttempt) returns (outcome: ResumeOutcome)
      requires Valid()
      modifies this`history
      ensures Valid()
      ensures outcome
           == OutcomeFor(providers, LatestCapture(providers, old(history), attempt.pausedWorkflowId), attempt)
      ensures history == old(history) + [Resume(attempt)]
    {
      var w := attempt.pausedWorkflowId;
      assert LatestCapture(providers, history, w) == if w in pauseEvents then Some(pauseEvents[w]) else None;
      history := history + [Resume(attempt)];
      assert history[..|history| - 1] == old(history);
      if w !in pauseEvents {
        return ResumeOutcome(AbortSnapshotCorrupted, [], false, None);
      }
      var diff := providers.diff(pauseEvents[w], attempt);
      var revalidated := providers.revalidated(attempt, diff);
      var kind := ClassifyResume(diff, revalidated);
      var auditId := None;
      if providers.resumeAudit.Some? {
        auditId := providers.resumeAudit.value(attempt, kind);
      }
      outcome := ResumeOutcome(kind, diff, kind == ResumeAfterRevalidation, auditId);
    }

    method HasPauseRecord(workflowId: string) returns (present: bool)
      requires Valid()
      ensures present <==> CapturedIn(history, workflowId)
    {
      present := workflowId in pauseEvents;
      CapturedIffLatest(providers, history, workflowId);
      assert LatestCapture(providers, history, workflowId)
          == if workflowId in pauseEvents then Some(pauseEvents[workflowId]) else None;
    }
  }

  // ---------------------------------------------------------------- over every history

  /** A record exists exactly for the workflows captured at some point. */
  lemma {:induction false} CapturedIffLatest(p: Providers, history: seq<Call>, w: string)
    ensures LatestCapture(p, history, w).Some? <==> CapturedIn(history, w)
  {
    if history != [] {
      var init, last := history[..|history| - 1], history[|history| - 1];
      CapturedIffLatest(p, init, w);
      assert forall i | 0 <= i < |init| :: init[i] == history[i];
      assert CapturedIn(history, w) <==> CapturedIn(init, w) || (last.Capture? && last.workflowId == w);
    }
  }

  /** The captures of one workflow, in order. */
  function CapturesOf(history: seq<Call>, w: string): seq<Call> {
    if history == [] then []
    else
      var last := history[|history| - 1];
      CapturesOf(history[..|history| - 1], w) + if last.Capture? && last.workflowId == w then [last] else []
  }

  /** Other workflows' captures, and every resume attempt, leave a workflow's answers alone. */
  lemma {:induction false} OnlyOwnCapturesMatter(p: Providers, history: seq<Call>, w: string)
    ensures LatestCapture(p, CapturesOf(history, w), w) == LatestCapture(p, history, w)
  {
    if history != [] {
      var init, last := history[..|history| - 1], history[|history| - 1];
      OnlyOwnCapturesMatter(p, init, w);
      if last.Capture? && last.workflowId == w {
        var own := CapturesOf(history, w);
        assert own[|own| - 1] == last;
      } else {
        assert CapturesOf(history, w) == CapturesOf(init, w);
      }
    }
  }

  /** What a resume answers after any history: corruption exactly when that workflow was never captured;
      otherwise the provider's diff, clean exactly when nothing in it is material, then revalidated or
      aborted as the re-validator says, with the audit provider's id if there is one; and the same answer
      as if only that workflow's own captures had happened. */
  lemma ResumeAnswers(p: Providers, history: seq<Call>, attempt: ResumeAttempt)
    ensures var w := attempt.pausedWorkflowId;
            var o := OutcomeFor(p, LatestCapture(p, history, w), attempt);
            var material := exists i | 0 <= i < |o.materialDiff| :: o.materialDiff[i].isMaterial;
            var revalidated := p.revalidated(attempt, o.materialDiff);
            && (o.kind == AbortSnapshotCorrupted <==> !CapturedIn(history, w))
            && (o.kind == ResumeClean <==> CapturedIn(history, w) && !material)
            && (o.kind == ResumeAfterRevalidation <==> CapturedIn(history, w) && material && revalidated)
            && (o.kind == AbortRevalidationFailed <==> CapturedIn(history, w) && material && !revalidated)
            && (o.contextRevalidated <==> o.kind == ResumeAfterRevalidation)
            && o.materialDiff
               == (if CapturedIn(history, w) then p.diff(LatestCapture(p, history, w).value, attempt) else [])
            && o.resumeAuditEntryId
               == (if CapturedIn(history, w) && p.resumeAudit.Some? then p.resumeAudit.value(attempt, o.kind) else None)
            && o == OutcomeFor(p, LatestCapture(p, CapturesOf(history, w), w), attempt)
  {
    CapturedIffLatest(p, history, attempt.pausedWorkflowId);
    OnlyOwnCapturesMatter(p, history, attempt.pausedWorkflowId);
  }

  /** `history[i]` is the last capture of `w`. */
  predicate IsLastCapture(history: seq<Call>, w: string, i: nat) {
    && i < |history| && history[i].Capture? && history[i].workflowId == w
    && forall j | i < j < |history| :: history[j].Capture? ==> history[j].workflowId != w
  }

  /** The event a workflow is resumed from carries the time, reason and summary of its last capture call and
      that summary's references.  Its audit id is the provider's, or without one the digest of workflow id,
      reason and summary hash set off by record separators. */
  lemma LatestCaptureCarries(p: Providers, history: seq<Call>, w: string, i: nat)
    requires IsLastCapture(history, w, i)
    ensures LatestCapture(p, history, w).Some?
    ensures var (c, e) := (history[i], LatestCapture(p, history, w).value);
            var (sep, h) := ([0x1E as char], c.summary.summaryHash);
            && e.pausedAt == c.now && e.pauseReason == c.reason && e.stateSummary == c.summary
            && e.externalRefsCaptured == c.summary.externalReferences
            && (p.pauseAudit.Some? ==> e.pauseAuditEntryId == p.pauseAudit.value(w, c.reason))
            && (p.pauseAudit.None? ==>
                  match c.reason
                  case HitlInvocationPending =>
                    e.pauseAuditEntryId == p.sha(w + sep + "hitl-invocation-pending" + sep + h)
                  case CrossDeploymentBridgingArcPause =>
                    e.pauseAuditEntryId == p.sha(w + sep + "cross-deployment-bridging-arc-pause" + sep + h)
                  case OperatorInitiatedPause =>
                    e.pauseAuditEntryId == p.sha(w + sep + "operator-initiated-pause" + sep + h)
                  case EngineNativePause =>
                    e.pauseAuditEntryId == p.sha(w + sep + "engine-native-pause" + sep + h))
  {
    var c := history[i];
    LatestIsLast(p, history, w, i);
    AuditTextSpelled(w, c.reason, c.summary.summaryHash);
    hide AuditText;
    hide LatestCapture;
  }

  lemma {:induction false} LatestIsLast(p: Providers, history: seq<Call>, w: string, i: nat)
    requires IsLastCapture(history, w, i)
    ensures LatestCapture(p, history, w)
         == Some(EventFor(p, w, history[i].reason, history[i].summary, history[i].now))
  {
    hide EventFor;
    if i < |history| - 1 {
      var front := history[..|history| - 1];
      assert forall j | 0 <= j < |front| :: front[j] == history[j];
      LatestIsLast(p, front, w, i);
    }
  }

  lemma AuditTextSpelled(w: string, r: PauseReason, h: string)
    ensures var sep := [0x1E as char];
            match r
            case HitlInvocationPending => AuditText(w, r, h) == w + sep + "hitl-invocation-pending" + sep + h
            case CrossDeploymentBridgingArcPause =>
              AuditText(w, r, h) == w + sep + "cross-deployment-bridging-arc-pause" + sep + h
            case OperatorInitiatedPause => AuditText(w, r, h) == w + sep + "operator-initiated-pause" + sep + h
            case EngineNativePause => AuditText(w, r, h) == w + sep + "engine-native-pause" + sep + h
  {
    IdempotencyKeys.JoinThreeIs(w, PauseReasonValue(r), h);
    hide IdempotencyKeys.Join;
  }

  /** Some reason stands, set off by separators, inside the workflow id or inside the summary hash. */
  ghost predicate HoldsReason(w: string, h: string) {
    exists v :: ReasonWithin(w, h, v)
  }

  ghost predicate ReasonWithin(w: string, h: string, v: PauseReason) {
    Contains(w + [IdempotencyKeys.SEPARATOR], Delimited(v)) || Contains([IdempotencyKeys.SEPARATOR] + h, Delimited(v))
  }

  function Delimited(v: PauseReason): string {
    [IdempotencyKeys.SEPARATOR] + PauseReasonValue(v) + [IdempotencyKeys.SEPARATOR]
  }

  lemma AuditTextIs(w: string, r: PauseReason, h: string)
    ensures AuditText(w, r, h) == w + Delimited(r) + h
  {
    hide PauseReasonValue;
    hide IdempotencyKeys.Join;
    JoinThree(w, PauseReasonValue(r), h);
  }

  lemma JoinThree(a: string, b: string, c: string)
    ensures var sep := [IdempotencyKeys.SEPARATOR];
            IdempotencyKeys.Join([a, b, c]) == a + (sep + b + sep) + c
  {
    hide IdempotencyKeys.Join;
    var sep := [IdempotencyKeys.SEPARATOR];
    IdempotencyKeys.JoinThreeIs(a, b, c);
    assert a + sep + b + sep + c == a + (sep + b + sep) + c;
  }

  /** The text under a default audit id identifies its workflow, reason and summary exactly when no other
      reason can be read out of the workflow id or the summary hash; texts without separators never hold
      one. */
  lemma AuditTextUniqueIff(w: string, r: PauseReason, h: string)
    ensures (forall x, s, k | AuditText(x, s, k) == AuditText(w, r, h) :: x == w && s == r && k == h)
            <==> !HoldsReason(w, h)
    ensures Free(IdempotencyKeys.SEPARATOR, w) && Free(IdempotencyKeys.SEPARATOR, h) ==> !HoldsReason(w, h)
  {
    hide AuditText;
    hide PauseReasonValue;
    if HoldsReason(w, h) {
      var v :| ReasonWithin(w, h, v);
      var x, k := OtherAuditReading(w, r, h, v);
    } else {
      forall x, s, k | AuditText(x, s, k) == AuditText(w, r, h) ensures x == w && s == r && k == h {
        assert !ReasonWithin(w, h, s);
        OnlyAuditReading(w, r, h, x, s, k);
      }
    }
    if Free(IdempotencyKeys.SEPARATOR, w) && Free(IdempotencyKeys.SEPARATOR, h) {
      forall v ensures !ReasonWithin(w, h, v) { NoRoomForReason(w, h, v); }
    }
  }

  lemma NoRoomForReason(w: string, h: string, v: PauseReason)
    requires Free(IdempotencyKeys.SEPARATOR, w) && Free(IdempotencyKeys.SEPARATOR, h)
    ensures !ReasonWithin(w, h, v)
  {
    hide PauseReasonValue;
    var d, sep := Delimited(v), IdempotencyKeys.SEPARATOR;
    assert d[0] == sep && d[|d| - 1] == sep && |d| >= 2;
    var t, u := w + [sep], [sep] + h;
    forall i | 0 <= i <= |t| ensures !OccursAt(t, i, d) {
      if i + |d| <= |t| { assert t[i..i + |d|][0] == t[i] == w[i]; }
    }
    forall i | 0 <= i <= |u| ensures !OccursAt(u, i, d) {
      if i + |d| <= |u| { assert u[i..i + |d|][|d| - 1] == u[i + |d| - 1] == h[i + |d| - 2]; }
    }
  }

  lemma OtherAuditReading(w: string, r: PauseReason, h: string, v: PauseReason) returns (x: string, k: string)
    requires ReasonWithin(w, h, v)
    ensures AuditText(x, v, k) == AuditText(w, r, h) && x != w
  {
    hide AuditText;
    hide PauseReasonValue;
    var sep, d, e := IdempotencyKeys.SEPARATOR, Delimited(v), Delimited(r);
    AuditTextIs(w, r, h);
    assert |d| >= 2 && |e| >= 2 && e[0] == sep && e[|e| - 1] == sep;
    if Contains(w + [sep], d) {
      var i :| 0 <= i <= |w + [sep]| && OccursAt(w + [sep], i, d);
      x, k := FrontReading(w, e, h, d, i);
    } else {
      var i :| 0 <= i <= |[sep] + h| && OccursAt([sep] + h, i, d);
      x, k := BackReading(w, e, h, d, i);
    }
    AuditTextIs(x, v, k);
  }

  lemma FrontReading(w: string, e: string, h: string, d: string, i: nat) returns (x: string, k: string)
    requires |e| > 0 && |d| >= 2 && OccursAt(w + [e[0]], i, d)
    ensures w + e + h == x + d + k && |x| < |w|
  {
    var t, front := w + e + h, w + [e[0]];
    x, k := t[..i], t[i + |d|..];
    assert front == t[..|front|];
    assert t[i..i + |d|] == front[i..i + |d|] == d;
    assert t == t[..i] + t[i..i + |d|] + t[i + |d|..];
  }

  lemma BackReading(w: string, e: string, h: string, d: string, i: nat) returns (x: string, k: string)
    requires |e| >= 2 && OccursAt([e[|e| - 1]] + h, i, d)
    ensures w + e + h == x + d + k && |x| > |w|
  {
    var t, back := w + e + h, [e[|e| - 1]] + h;
    var m := |w| + |e| - 1;
    x, k := t[..m + i], t[m + i + |d|..];
    assert back == t[m..];
    assert t[m + i..m + i + |d|] == back[i..i + |d|] == d;
    assert t == t[..m + i] + t[m + i..m + i + |d|] + t[m + i + |d|..];
  }

  /** A reading with another workflow id finds its reason inside one of the outer parts. */
  lemma ReasonElsewhere(w: string, r: PauseReason, h: string, x: string, s: PauseReason, k: string)
    requires w + Delimited(r) + h == x + Delimited(s) + k && |x| != |w|
    ensures ReasonWithin(w, h, s)
  {
    hide PauseReasonValue;
    var sep := IdempotencyKeys.SEPARATOR;
    ReasonValueSeparatorFree(r);
    ReasonValueSeparatorFree(s);
    var a, b := PauseReasonValue(r), PauseReasonValue(s);
    assert w + Delimited(r) + h == w + [sep] + (a + [sep] + h);
    assert x + Delimited(s) + k == x + [sep] + (b + [sep] + k);
    if |x| < |w| {
      ReasonInFront(w, a + [sep] + h, x, b, k);
      ContainsIn(w + [sep], |x|, Delimited(s));
    } else {
      ReasonBehind(w, a, h, x, b, k);
      ContainsIn([sep] + h, |x| - |w| - |a| - 1, Delimited(s));
    }
  }

  lemma OnlyAuditReading(w: string, r: PauseReason, h: string, x: string, s: PauseReason, k: string)
    requires AuditText(x, s, k) == AuditText(w, r, h) && !ReasonWithin(w, h, s)
    ensures x == w && s == r && k == h
  {
    hide AuditText;
    hide PauseReasonValue;
    hide ReasonWithin;
    AuditTextIs(w, r, h);
    AuditTextIs(x, s, k);
    if |x| != |w| { ReasonElsewhere(w, r, h, x, s, k); }
    SameFrontSameParts(w, r, h, x, s, k);
  }

  lemma SameFrontSameParts(w: string, r: PauseReason, h: string, x: string, s: PauseReason, k: string)
    requires w + Delimited(r) + h == x + Delimited(s) + k && |x| == |w|
    ensures x == w && s == r && k == h
  {
    hide PauseReasonValue;
    var sep := IdempotencyKeys.SEPARATOR;
    ReasonValueSeparatorFree(r);
    ReasonValueSeparatorFree(s);
    var a, b := PauseReasonValue(r), PauseReasonValue(s);
    var t := w + Delimited(r) + h;
    assert w == t[..|w|] == x;
    assert t == w + [sep] + (a + [sep] + h) && t == x + [sep] + (b + [sep] + k);
    HeadsAgree(sep, w, a + [sep] + h, x, b + [sep] + k);
    HeadsAgree(sep, a, h, b, k);
    ReasonValueInjective(r, s);
  }

  /** A reason read before the separator that ends `w` lies within `w` and that separator. */
  lemma ReasonInFront(w: string, rest: string, x: string, b: string, k: string)
    requires var sep := IdempotencyKeys.SEPARATOR; w + [sep] + rest == x + [sep] + (b + [sep] + k)
    requires |x| < |w| && Free(IdempotencyKeys.SEPARATOR, b)
    ensures var sep := IdempotencyKeys.SEPARATOR; OccursAt(w + [sep], |x|, [sep] + b + [sep])
  {
    var sep := IdempotencyKeys.SEPARATOR;
    var t, d := w + [sep] + rest, [sep] + b + [sep];
    assert t == x + d + k && t[|w|] == sep;
    assert forall i | 0 <= i < |b| :: t[|x| + 1 + i] == b[i];
    assert |x| + |d| <= |w| + 1;
    assert t[|x|..|x| + |d|] == d && t[0..|w| + 1] == w + [sep];
    WithinSlice(t, 0, w + [sep], |x|, d);
  }

  lemma ReasonBehind(w: string, a: string, h: string, x: string, b: string, k: string)
    requires var sep := IdempotencyKeys.SEPARATOR; w + [sep] + (a + [sep] + h) == x + [sep] + (b + [sep] + k)
    requires |x| > |w| && Free(IdempotencyKeys.SEPARATOR, a)
    ensures |x| >= |w| + |a| + 1
    ensures var sep := IdempotencyKeys.SEPARATOR; OccursAt([sep] + h, |x| - |w| - |a| - 1, [sep] + b + [sep])
  {
    var sep := IdempotencyKeys.SEPARATOR;
    var front, back, d := w + [sep] + a, [sep] + h, [sep] + b + [sep];
    var t := front + back;
    assert t == w + [sep] + (a + [sep] + h) && t == x + d + k;
    PartsOf(front, back, "");
    PartsOf(x, d, k);
    assert front + back + "" == t && d[0] == sep;
    assert t[|x|] == (x + d + k)[|x|] == d[0];
    assert forall i | |w| < i < |front| :: t[i] == a[i - |w| - 1];
    WithinSlice(t, |front|, back, |x|, d);
  }

  /** Equal default audit ids then mean equal workflow, reason and summary, or a collision. */
  lemma DefaultAuditIdBinds(
    sha: string -> string, w: string, r: PauseReason, h: string, x: string, s: PauseReason, k: string)
    requires !HoldsReason(w, h) && sha(AuditText(w, r, h)) == sha(AuditText(x, s, k))
    ensures (w == x && r == s && h == k) || Collide(sha, AuditText(w, r, h), AuditText(x, s, k))
  {
    hide AuditText;
    hide HoldsReason;
    AuditTextUniqueIff(w, r, h);
  }

  lemma ReasonValueSeparatorFree(r: PauseReason)
    ensures Free(IdempotencyKeys.SEPARATOR, PauseReasonValue(r))
  {
    match r
    case HitlInvocationPending => FirstValueFree();
    case CrossDeploymentBridgingArcPause => SecondValueFree();
    case OperatorInitiatedPause => ThirdValueFree();
    case EngineNativePause => FourthValueFree();
  }

  lemma FirstValueFree()
    ensures Free(IdempotencyKeys.SEPARATOR, "hitl-invocation-pending")
  {
  }

  lemma SecondValueFree()
    ensures Free(IdempotencyKeys.SEPARATOR, "cross-deployment-bridging-arc-pause")
  {
  }

  lemma ThirdValueFree()
    ensures Free(IdempotencyKeys.SEPARATOR, "operator-initiated-pause")
  {
  }

  lemma FourthValueFree()
    ensures Free(IdempotencyKeys.SEPARATOR, "engine-native-pause")
  {
  }

  lemma ReasonValueInjective(r: PauseReason, s: PauseReason)
    requires PauseReasonValue(r) == PauseReasonValue(s)
    ensures r == s
  {
    assert |PauseReasonValue(HitlInvocationPending)| == 23 && |PauseReasonValue(OperatorInitiatedPause)| == 24;
    assert |PauseReasonValue(CrossDeploymentBridgingArcPause)| == 35 && |PauseReasonValue(EngineNativePause)| == 19;
  }

  // ---------------------------------------------------------------- the scoped binding

  /** A program over the free functions: calls, a raised exception, and `with bind(..)` blocks. */
  datatype Script =
    | Done
    | Raise
    | Capturing(workflowId: string, reason: PauseReason, summary: StateSummary, now: string, next: Script)
    | Resuming(attempt: ResumeAttempt, next: Script)
    | With(substrate: DeterministicEnginePauseResumeSubstrate, body: Script, next: Script)

  function Substrates(s: Script): set<DeterministicEnginePauseResumeSubstrate> {
    match s
    case Done => {}
    case Raise => {}
    case Capturing(_, _, _, _, next) => Substrates(next)
    case Resuming(_, next) => Substrates(next)
    case With(b, body, next) => {b} + Substrates(body) + Substrates(next)
  }

  /** Does the script end by raising, given whether a substrate is bound around it?  A call with
      nothing bound raises. */
  predicate Raises(s: Script, bound: bool) {
    match s
    case Done => false
    case Raise => true
    case Capturing(_, _, _, _, next) => !bound || Raises(next, bound)
    case Resuming(_, next) => !bound || Raises(next, bound)
    case With(_, body, next) => Raises(body, true) || Raises(next, bound)
  }

  /** The calls that reach `target`, each call going to the innermost enclosing binding. */
  function CallsTo(target: DeterministicEnginePauseResumeSubstrate, s: Script,
                   bound: DeterministicEnginePauseResumeSubstrate?): seq<Call>
  {
    match s
    case Done => []
    case Raise => []
    case Capturing(w, r, summary, now, next) =>
      if bound == null then []
      else (if bound == target then [Capture(w, r, summary, now)] else []) + CallsTo(target, next, bound)
    case Resuming(attempt, next) =>
      if bound == null then []
      else (if bound == target then [Resume(attempt)] else []) + CallsTo(target, next, bound)
    case With(b, body, next) =>
      CallsTo(target, body, b) + if Raises(body, true) then [] else CallsTo(target, next, bound)
  }

  /** A `with` block: its body under the new binding, then the rest unless the body raised. */
  lemma WithParts(s: Script, bound: DeterministicEnginePauseResumeSubstrate?)
    requires s.With?
    ensures s.substrate in Substrates(s) && Substrates(s.body) <= Substrates(s) && Substrates(s.next) <= Substrates(s)
    ensures Raises(s, bound != null) <==> Raises(s.body, true) || Raises(s.next, bound != null)
    ensures forall b :: CallsTo(b, s, bound)
              == CallsTo(b, s.body, s.substrate) + if Raises(s.body, true) then [] else CallsTo(b, s.next, bound)
  {
  }

  function CallOf(s: Script): Call
    requires s.Capturing? || s.Resuming?
  {
    if s.Capturing? then Capture(s.workflowId, s.reason, s.summary, s.now) else Resume(s.attempt)
  }

  lemma CallOfIs(s: Script)
    requires s.Capturing? || s.Resuming?
    ensures s.Capturing? ==> CallOf(s) == Capture(s.workflowId, s.reason, s.summary, s.now)
    ensures s.Resuming? ==> CallOf(s) == Resume(s.attempt)
  {
  }

  /** A script that calls first: the call reaches the bound substrate, or raises if there is none. */
  lemma CallParts(s: Script, bound: DeterministicEnginePauseResumeSubstrate?)
    requires s.Capturing? || s.Resuming?
    ensures Substrates(s) == Substrates(s.next)
    ensures Raises(s, bound != null) <==> bound == null || Raises(s.next, true)
    ensures forall b :: CallsTo(b, s, bound)
              == if bound == null then []
                 else (if b == bound then [CallOf(s)] else []) + CallsTo(b, s.next, bound)
  {
  }

  lemma EndParts(s: Script, bound: DeterministicEnginePauseResumeSubstrate?)
    requires s.Done? || s.Raise?
    ensures (Raises(s, bound != null) <==> s.Raise?) && forall b :: CallsTo(b, s, bound) == []
  {
  }

  // ---------------------------------------------------------------- the binding as a stack

  /** A script as one line of steps. */
  datatype Step =
    | Enter(substrate: DeterministicEnginePauseResumeSubstrate)
    | Leave
    | Perform(call: Call)
    | Fail

  function Steps(s: Script): seq<Step> {
    match s
    case Done => []
    case Raise => [Fail]
    case Capturing(w, r, summary, now, next) => [Perform(Capture(w, r, summary, now))] + Steps(next)
    case Resuming(attempt, next) => [Perform(Resume(attempt))] + Steps(next)
    case With(b, body, next) => [Enter(b)] + (Steps(body) + ([Leave] + Steps(next)))
  }

  /** The calls `target` receives when the steps run over a stack of bindings: the top of the stack takes each
      call, and a failure, or a call over the empty stack, ends the run. */
  function Delivered(target: DeterministicEnginePauseResumeSubstrate, steps: seq<Step>,
                     stack: seq<DeterministicEnginePauseResumeSubstrate>): seq<Call>
  {
    if steps == [] then []
    else
      match steps[0]
      case Enter(b) => Delivered(target, steps[1..], stack + [b])
      case Leave => if stack == [] then [] else Delivered(target, steps[1..], stack[..|stack| - 1])
      case Perform(call) =>
        if stack == [] then []
        else
          (if stack[|stack| - 1] == target then [call] else []) + Delivered(target, steps[1..], stack)
      case Fail => []
  }

  predicate Fails(steps: seq<Step>, stack: seq<DeterministicEnginePauseResumeSubstrate>) {
    if steps == [] then false
    else
      match steps[0]
      case Enter(b) => Fails(steps[1..], stack + [b])
      case Leave => stack == [] || Fails(steps[1..], stack[..|stack| - 1])
      case Perform(_) => stack == [] || Fails(steps[1..], stack)
      case Fail => true
  }

  function Top(stack: seq<DeterministicEnginePauseResumeSubstrate>): DeterministicEnginePauseResumeSubstrate? {
    if stack == [] then null else stack[|stack| - 1]
  }

  lemma StepsOf(s: Script)
    ensures s.Done? ==> Steps(s) == []
    ensures s.Raise? ==> Steps(s) == [Fail]
    ensures s.Capturing? || s.Resuming? ==> Steps(s) == [Perform(CallOf(s))] + Steps(s.next)
    ensures s.With? ==> Steps(s) == [Enter(s.substrate)] + (Steps(s.body) + ([Leave] + Steps(s.next)))
  {
  }

  lemma RunStep(target: DeterministicEnginePauseResumeSubstrate, step: Step, rest: seq<Step>,
                stack: seq<DeterministicEnginePauseResumeSubstrate>)
    ensures Delivered(target, [step] + rest, stack)
         == if step.Enter? then Delivered(target, rest, stack + [step.substrate])
            else if step.Fail? || stack == [] then []
            else if step.Leave? then Delivered(target, rest, stack[..|stack| - 1])
            else (if Top(stack) == target then [step.call] else []) + Delivered(target, rest, stack)
    ensures Fails([step] + rest, stack)
         == if step.Enter? then Fails(rest, stack + [step.substrate])
            else if step.Fail? || stack == [] then true
            else if step.Leave? then Fails(rest, stack[..|stack| - 1])
            else Fails(rest, stack)
  {
    assert ([step] + rest)[1..] == rest;
  }

  /** Running a script's steps over any stack, with more steps after them. */
  lemma {:induction false} StepsRun(target: DeterministicEnginePauseResumeSubstrate, s: Script, rest: seq<Step>,
                                    stack: seq<DeterministicEnginePauseResumeSubstrate>)
    ensures Delivered(target, Steps(s) + rest, stack)
         == CallsTo(target, s, Top(stack)) + if Raises(s, stack != []) then [] else Delivered(target, rest, stack)
    ensures Fails(Steps(s) + rest, stack) <==> Raises(s, stack != []) || Fails(rest, stack)
    decreases s
  {
    hide *;
    StepsOf(s);
    TopIsNull(stack);
    match s
    case Done =>
      EndParts(s, Top(stack));
      NoneInFront(rest);
      NoneInFront(Delivered(target, rest, stack));
    case Raise =>
      EndParts(s, Top(stack));
      RunStep(target, Fail, rest, stack);
    case With(_, _, _) => WithRuns(target, s, rest, stack);
    case _ =>
      CallParts(s, Top(stack));
      ConcatAssociates([Perform(CallOf(s))], Steps(s.next), rest);
      RunStep(target, Perform(CallOf(s)), Steps(s.next) + rest, stack);
      StepsRun(target, s.next, rest, stack);
      if stack != [] {
        ConcatAssociates(if Top(stack) == target then [CallOf(s)] else [], CallsTo(target, s.next, Top(stack)),
                         if Raises(s, true) then [] else Delivered(target, rest, stack));
      }
  }

  lemma TopIsNull(stack: seq<DeterministicEnginePauseResumeSubstrate>)
    ensures Top(stack) == null <==> stack == []
  {
  }

  lemma {:induction false} WithRuns(target: DeterministicEnginePauseResumeSubstrate, s: Script, rest: seq<Step>,
                                    stack: seq<DeterministicEnginePauseResumeSubstrate>)
    requires s.With?
    ensures Delivered(target, Steps(s) + rest, stack)
         == CallsTo(target, s, Top(stack)) + if Raises(s, stack != []) then [] else Delivered(target, rest, stack)
    ensures Fails(Steps(s) + rest, stack) <==> Raises(s, stack != []) || Fails(rest, stack)
    decreases s, 0
  {
    hide *;
    var b, inner := s.substrate, stack + [s.substrate];
    var after := [Leave] + (Steps(s.next) + rest);
    StepsOf(s);
    TopIsNull(stack);
    TopOfPushed(stack, b);
    WithParts(s, Top(stack));
    assert Steps(s) + rest == [Enter(b)] + (Steps(s.body) + after);
    RunStep(target, Enter(b), Steps(s.body) + after, stack);
    StepsRun(target, s.body, after, inner);
    RunStep(target, Leave, Steps(s.next) + rest, inner);
    StepsRun(target, s.next, rest, stack);
    if !Raises(s.body, true) {
      ConcatAssociates(CallsTo(target, s.body, b), CallsTo(target, s.next, Top(stack)),
                       if Raises(s.next, stack != []) then [] else Delivered(target, rest, stack));
    }
  }

  lemma TopOfPushed(stack: seq<DeterministicEnginePauseResumeSubstrate>, b: DeterministicEnginePauseResumeSubstrate)
    ensures Top(stack + [b]) == b && (stack + [b])[..|stack + [b]| - 1] == stack && stack + [b] != []
  {
  }

  /** The scoped binding behaves as a stack: a script's calls reach, and its failures are, exactly those of its
      steps run over the stack that holds what is bound around it. */
  lemma BindingIsStack(target: DeterministicEnginePauseResumeSubstrate, s: Script,
                       bound: DeterministicEnginePauseResumeSubstrate?)
    ensures var stack := if bound == null then [] else [bound];
            && CallsTo(target, s, bound) == Delivered(target, Steps(s), stack)
            && (Raises(s, bound != null) <==> Fails(Steps(s), stack))
  {
    var stack: seq<DeterministicEnginePauseResumeSubstrate> := if bound == null then [] else [bound];
    StepsRun(target, s, [], stack);
    assert Steps(s) + [] == Steps(s) && Top(stack) == bound;
    assert Delivered(target, [], stack) == [] && !Fails([], stack);
    hide *;
  }

  datatype NotBound = SubstrateNotBound

  /** The process-wide binding. */
  class EngineLayer {
    var bound: DeterministicEnginePauseResumeSubstrate?

    constructor ()
      ensures bound == null
    {
      bound := null;
    }

    /** The free function: with nothing bound it fails and reaches no substrate. */
    method CapturePauseSnapshot(
      w: string, r: PauseReason, summary: StateSummary, now: string,
      ghost all: set<DeterministicEnginePauseResumeSubstrate>)
      returns (event: Result<PauseEvent, NotBound>)
      requires (bound == null || bound in all) && forall b | b in all :: b.Valid()
      modifies all
      ensures event == if bound == null then Err(SubstrateNotBound)
                       else Ok(EventFor(bound.providers, w, r, summary, now))
      ensures forall b | b in all ::
                b.Valid() && b.history == old(b.history) + if b == bound then [Capture(w, r, summary, now)] else []
    {
      if bound == null {
        return Err(SubstrateNotBound);
      }
      var e := bound.CapturePauseSnapshot(w, r, summary, now);
      event := Ok(e);
    }

    method AttemptResume(attempt: ResumeAttempt, ghost all: set<DeterministicEnginePauseResumeSubstrate>)
      returns (outcome: Result<ResumeOutcome, NotBound>)
      requires (bound == null || bound in all) && forall b | b in all :: b.Valid()
      modifies all
      ensures outcome == if bound == null then Err(SubstrateNotBound)
                         else Ok(OutcomeFor(
                           bound.providers,
                           old(LatestCapture(bound.providers, bound.history, attempt.pausedWorkflowId)),
                           attempt))
      ensures forall b | b in all ::
                b.Valid() && b.history == old(b.history) + if b == bound then [Resume(attempt)] else []
    {
      if bound == null {
        return Err(SubstrateNotBound);
      }
      var o := bound.AttemptResume(attempt);
      outcome := Ok(o);
    }

    /** Running any script leaves the binding as it found it, raise or no raise; every call reaches the
        innermost bound substrate, and calls with nothing bound raise and reach none. */
    method Execute(script: Script, ghost all: set<DeterministicEnginePauseResumeSubstrate>)
      returns (raised: bool)
      requires Substrates(script) <= all && (bound == null || bound in all)
      requires forall b | b in all :: b.Valid()
      modifies this, all
      ensures bound == old(bound)
      ensures raised == Raises(script, bound != null)
      ensures forall b | b in all :: b.Valid() && b.history == old(b.history) + CallsTo(b, script, bound)
      decreases script, 1
    {
      hide *;
      if script.With? {
        raised := ExecuteWith(script, all);
      } else if script.Done? || script.Raise? {
        EndParts(script, bound);
        raised := script.Raise?;
      } else {
        CallParts(script, bound);
        raised := PerformCall(script, all);
        if !raised {
          raised := Execute(script.next, all);
        }
      }
    }

    /** The call a script starts with. */
    method PerformCall(script: Script, ghost all: set<DeterministicEnginePauseResumeSubstrate>)
      returns (failed: bool)
      requires script.Capturing? || script.Resuming?
      requires (bound == null || bound in all) && forall b | b in all :: b.Valid()
      modifies all
      ensures failed <==> bound == null
      ensures forall b | b in all ::
                b.Valid() && b.history == old(b.history) + if b == bound then [CallOf(script)] else []
    {
      hide *;
      if script.Capturing? {
        var event := CapturePauseSnapshot(script.workflowId, script.reason, script.summary, script.now, all);
        failed := event.Err?;
      } else {
        var outcome := AttemptResume(script.attempt, all);
        failed := outcome.Err?;
      }
      CallOfIs(script);
    }

    method ExecuteWith(script: Script, ghost all: set<DeterministicEnginePauseResumeSubstrate>) returns (raised: bool)
      requires script.With? && Substrates(script) <= all && (bound == null || bound in all)
      requires forall b | b in all :: b.Valid()
      modifies this, all
      ensures bound == old(bound)
      ensures raised == Raises(script, bound != null)
      ensures forall b | b in all :: b.Valid() && b.history == old(b.history) + CallsTo(b, script, bound)
      decreases script, 0
    {
      hide *;
      WithParts(script, bound);
      var previous := bound;
      bound := script.substrate;
      raised := Execute(script.body, all);
      bound := previous;
      if !raised {
        raised := Execute(script.next, all);
      }
    }
  }
}
