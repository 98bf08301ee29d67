/** The idempotency key of an emitted pause-captured entry.  The emitter hashes the whole pause event, audit
    id included, so its keys identify their entry whatever the audit id holds. */
module CapturedEntries {
  import opened Digests
  import opened EnginePauseSubstrate
  import opened IdempotencyKeys
  import opened JsonText
  import opened PauseSnapshots
  import opened Separators
  import opened SnapshotReading
  import SnapshotCoverage

  // ---------------------------------------------------------------- the hashed event

  function DumpEvent(e: PauseEvent): Json {
    JObject(map["paused_at" := JString(e.pausedAt),
                "pause_reason" := JString(PauseReasonValue(e.pauseReason)),
                "state_summary_snapshot" := DumpSummary(e.stateSummary),
                "external_refs_captured" := JArray(MapSeq(DumpReference, e.externalRefsCaptured)),
                "pause_audit_entry_id" := JString(e.pauseAuditEntryId)])
  }

  /** `_canonicalize_outcome_bytes`, before the UTF-8 encoding: no `ensure_ascii`. */
  function EventText(e: PauseEvent): string {
    Print(DumpEvent(e), false)
  }

  lemma EventTextsAgree(e: PauseEvent, f: PauseEvent)
    requires EventText(e) == EventText(f)
    ensures DumpEvent(e) == DumpEvent(f)
  {
    hide Print;
    hide DumpEvent;
    PrintInjective(DumpEvent(e), DumpEvent(f), false);
  }

  lemma EventFieldsAgree(e: PauseEvent, f: PauseEvent)
    requires DumpEvent(e) == DumpEvent(f)
    ensures e.pausedAt == f.pausedAt && PauseReasonValue(e.pauseReason) == PauseReasonValue(f.pauseReason)
    ensures DumpSummary(e.stateSummary) == DumpSummary(f.stateSummary)
    ensures MapSeq(DumpReference, e.externalRefsCaptured) == MapSeq(DumpReference, f.externalRefsCaptured)
    ensures e.pauseAuditEntryId == f.pauseAuditEntryId
  {
    hide DumpSummary;
    hide MapSeq;
    hide PauseReasonValue;
    var m, n := DumpEvent(e).members, DumpEvent(f).members;
    assert m["paused_at"] == n["paused_at"] && m["pause_reason"] == n["pause_reason"];
    assert m["state_summary_snapshot"] == n["state_summary_snapshot"];
    assert m["external_refs_captured"] == n["external_refs_captured"];
    assert m["pause_audit_entry_id"] == n["pause_audit_entry_id"];
  }

  /** The hashed text is the event: nothing of it is lost. */
  lemma EventTextInjective(e: PauseEvent, f: PauseEvent)
    requires EventText(e) == EventText(f)
    ensures e == f
  {
    hide *;
    EventTextsAgree(e, f);
    EventFieldsAgree(e, f);
    ReasonValueInjective(e.pauseReason, f.pauseReason);
    SummariesAgree(e.stateSummary, f.stateSummary);
    ReferencesAgree(e.externalRefsCaptured, f.externalRefsCaptured);
  }

  lemma SummariesAgree(a: StateSummary, b: StateSummary)
    requires DumpSummary(a) == DumpSummary(b)
    ensures a == b
  {
    hide DumpSummary;
    SnapshotCoverage.SummaryInjective();
  }

  lemma ReferencesAgree(xs: seq<ExternalReference>, ys: seq<ExternalReference>)
    requires MapSeq(DumpReference, xs) == MapSeq(DumpReference, ys)
    ensures xs == ys
  {
    hide DumpReference;
    SnapshotCoverage.ReferenceInjective();
    SnapshotCoverage.MapSeqInjective(DumpReference, xs, ys);
  }

  predicate IsEvent(j: Json, e: PauseEvent) {
    && HasKeys(j, {"paused_at", "pause_reason", "state_summary_snapshot", "external_refs_captured",
                   "pause_audit_entry_id"}, {})
    && HasText(j, "paused_at", e.pausedAt)
    && (match e.pauseReason
        case HitlInvocationPending => HasText(j, "pause_reason", "hitl-invocation-pending")
        case CrossDeploymentBridgingArcPause => HasText(j, "pause_reason", "cross-deployment-bridging-arc-pause")
        case OperatorInitiatedPause => HasText(j, "pause_reason", "operator-initiated-pause")
        case EngineNativePause => HasText(j, "pause_reason", "engine-native-pause"))
    && HasValue(j, "state_summary_snapshot", e.stateSummary, IsSummary)
    && HasList(j, "external_refs_captured", e.externalRefsCaptured, IsReference)
    && HasText(j, "pause_audit_entry_id", e.pauseAuditEntryId)
  }

  lemma DumpEventReads(e: PauseEvent)
    ensures IsEvent(DumpEvent(e), e)
  {
    hide DumpSummary;
    hide DumpReference;
    hide IsSummary;
    hide IsReference;
    SummaryReads(e.stateSummary);
    forall i | 0 <= i < |e.externalRefsCaptured|
      ensures IsReference(DumpReference(e.externalRefsCaptured[i]), e.externalRefsCaptured[i])
    {
      ReferenceReads(e.externalRefsCaptured[i]);
    }
  }

  /** A JSON reader takes the hashed text whole and finds the event's fields, each under its own key. */
  lemma EventTextReads(e: PauseEvent)
    ensures var read := ReadValue(EventText(e));
            && read.Some? && read.value.1 == "" && IsEvent(read.value.0, e)
            && EventText(e) == Print(read.value.0, false)
  {
    DumpEventReads(e);
    EventTextIs(e);
    hide *;
    EndsNowhere();
    PrintReadsBack(DumpEvent(e), "", false);
    assert Print(DumpEvent(e), false) + "" == Print(DumpEvent(e), false);
  }

  lemma EventTextIs(e: PauseEvent)
    ensures EventText(e) == Print(DumpEvent(e), false)
  {
    hide Print;
  }

  // ---------------------------------------------------------------- the emitted key

  function EmittedTuple(sha: string -> string, w: string, s: string, e: PauseEvent): CapturedKey {
    CapturedKey(w, s, e.pauseAuditEntryId, sha(EventText(e)))
  }

  function EmittedKeyText(sha: string -> string, w: string, s: string, e: PauseEvent): string {
    Join(CapturedSegments(EmittedTuple(sha, w, s, e)))
  }

  /** The key `emit_pause_captured_state_ledger_entry` writes. */
  function EmittedCapturedKey(sha: string -> string, w: string, s: string, e: PauseEvent): string {
    PauseCapturedIdempotencyKey(sha, EmittedTuple(sha, w, s, e))
  }

  /** The key hashes workflow, step, the event's audit id twice and the digest of the event's text. */
  lemma EmittedKeyIs(sha: string -> string, w: string, s: string, e: PauseEvent)
    ensures var (rs, a) := ([0x1E as char], e.pauseAuditEntryId);
            EmittedCapturedKey(sha, w, s, e)
            == sha(w + rs + s + rs + a + rs + a + rs + sha(EventText(e)))
  {
    hide EventText;
    CapturedKeyIs(sha, EmittedTuple(sha, w, s, e));
    hide CapturedSegments;
    hide PauseCapturedIdempotencyKey;
  }

  /** With equal audit ids and outcome hashes, equal texts leave the identifiers. */
  lemma SameEventSameIds(x: CapturedKey, y: CapturedKey)
    requires CapturedText(x) == CapturedText(y)
    requires x.pauseAuditEntryId == y.pauseAuditEntryId && x.outcomeHash == y.outcomeHash
    requires Free(SEPARATOR, x.workflowId) && Free(SEPARATOR, x.stepId)
    ensures x == y
  {
    hide *;
    CapturedTextParts(x);
    CapturedTextParts(y);
    CutTail(x.workflowId + [SEPARATOR] + x.stepId, y.workflowId + [SEPARATOR] + y.stepId,
            Twice(x.pauseAuditEntryId), x.outcomeHash);
    TwoFreeParts(x.workflowId, x.stepId, y.workflowId, y.stepId);
  }

  lemma CutTail(a: string, b: string, t: string, h: string)
    requires a + t + h == b + t + h
    ensures a == b
  {
    var u, v := a + t + h, b + t + h;
    assert |a| == |b|;
    assert a == u[..|a|] == v[..|b|] == b;
  }

  lemma TwoFreeParts(a: string, b: string, c: string, d: string)
    requires a + [SEPARATOR] + b == c + [SEPARATOR] + d && Free(SEPARATOR, a) && Free(SEPARATOR, b)
    ensures a == c && b == d
  {
    assert Join([a, b]) == a + [SEPARATOR] + Join([b]) && Join([c, d]) == c + [SEPARATOR] + Join([d]);
    assert Join([b]) == b && Join([d]) == d;
    JoinDecodesUniquely([a, b], [c, d]);
    assert [a, b][0] == [c, d][0] && [a, b][1] == [c, d][1];
  }

  /** Equal emitted keys mean the same workflow, step and event, audit id and all, or a collision of two
      texts that were hashed.  Nothing is asked of the audit id. */
  lemma EmittedKeysBind(sha: string -> string, w: string, s: string, e: PauseEvent, x: string, t: string, f: PauseEvent)
    requires Free(SEPARATOR, w) && Free(SEPARATOR, s)
    requires Free(SEPARATOR, sha(EventText(e))) && Free(SEPARATOR, sha(EventText(f)))
    requires EmittedCapturedKey(sha, w, s, e) == EmittedCapturedKey(sha, x, t, f)
    ensures || (w == x && s == t && e == f)
            || Collide(sha, EventText(e), EventText(f))
            || Collide(sha, EmittedKeyText(sha, w, s, e), EmittedKeyText(sha, x, t, f))
  {
    hide Join;
    hide EventText;
    hide Free;
    var k, l := EmittedTuple(sha, w, s, e), EmittedTuple(sha, x, t, f);
    if EmittedKeyText(sha, w, s, e) == EmittedKeyText(sha, x, t, f) {
      CapturedTextIs(k);
      CapturedTextIs(l);
      OtherReadingEnds(k, l);
      if EventText(e) == EventText(f) {
        EventTextInjective(e, f);
        SameEventSameIds(k, l);
      }
    }
  }

  /** The identifiers must be separator-free for that: otherwise the same event under two other identifiers
      gets the very same key. */
  lemma EmittedTextUniqueIff(sha: string -> string, w: string, s: string, e: PauseEvent)
    ensures (forall x, t | EmittedKeyText(sha, x, t, e) == EmittedKeyText(sha, w, s, e) :: x == w && t == s)
            <==> Free(SEPARATOR, w) && Free(SEPARATOR, s)
  {
    hide Join;
    hide EventText;
    hide Free;
    var k := EmittedTuple(sha, w, s, e);
    if Free(SEPARATOR, w) && Free(SEPARATOR, s) {
      forall x, t | EmittedKeyText(sha, x, t, e) == EmittedKeyText(sha, w, s, e) ensures x == w && t == s {
        var l := EmittedTuple(sha, x, t, e);
        CapturedTextIs(k);
        CapturedTextIs(l);
        SameEventSameIds(k, l);
      }
    } else {
      var z := OtherCapturedReading(k);
      assert z == EmittedTuple(sha, z.workflowId, z.stepId, e);
      assert EmittedKeyText(sha, z.workflowId, z.stepId, e) == EmittedKeyText(sha, w, s, e);
    }
  }
}
