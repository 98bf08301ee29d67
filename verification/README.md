# Verified model of the harness's control-plane and action-surface logic

Dafny models of the parts of the harness whose correctness is not visible from one function at a time, and
proofs about them that hold for every input, every run or every reachable state:

- **Pause snapshots** (`harness_cp.pause_resume_protocol`): the JSON dump of a snapshot and of the snapshots
  nested in it, the path-aware strip of default-valued additive fields (run in place on a heap of dictionary
  objects), the canonical text under the snapshot hash and what a JSON reader finds in it (`SnapshotReading`), capture
  and resume.
- **Engine pause/resume substrate** (same file): the stateful store as a class with a ghost call history, and the
  scoped process-wide binding, which is shown to be a stack.
- **Idempotency keys** (same file and `harness_cp.hitl_as_tool_call_rewriting`): record-separator joined texts
  (`IdempotencyKeys`), and the keys of emitted pause-captured entries (`CapturedEntries`).
- **Sibling Merkle root** (`harness_cp.parent_fanout_close_entry`): the level-by-level loop, the recursive tree it
  computes, and what the root binds.
- **Secret redaction against its detector** (`harness_as.secret_passthrough`, `harness_as.secret_negative_observation`):
  replacing markers one after the other (`MarkerReplacement`), which markers and which sets of markers can survive it in
  company (`RedactionCoverage`) and alone (`RedactionStream`, `RedactionAlone`), and what the detector says of the
  result (`SecretRedaction`).
- **Configuration overlays** (`tools/apply_example_runtime_overlay.py`): the deep merge (`ConfigOverlay`), the TOML
  printer (`TomlText`, `TomlDocument`, `TomlRendering`) and its text character by character (`TomlPrinting`), the
  document rules of TOML (`TomlRules`), a TOML reader (`TomlReader`, `TomlReadBack`), what a reader can get out of a
  text at most (`TomlWeights`, `TomlPrintedWeights`, `TomlKeyLocality`), and the two together (`TomlRoundTrip`,
  `OverlayRoundTrip`).
- **Embedding classifier** (`harness_cp.embedding_routing`): k nearest exemplars, vote, decision.
- **Fallback chain** (`harness_cp.cross_family_fallback_chain`): failing the current candidate over and over.
- **Cost attribution join** (`harness_as.sandbox_event_idempotency`).

Support modules (`Wrappers`, `Sequences`, `Separators`, `Substrings`, `Scanning`, `Digests`, `CodePointOrder`,
`Decimals`, `QuotedText`, `JsonText`, `JsonPrinting`, `PyStrings`, `UnitVectors`, `SpanAttributes`) hold what several of
these share.  `dafny verify dfyconfig.toml` checks everything.

Results are of two kinds: what an operation keeps, binds or undoes, and what its result is, spelled out in literal keys,
separators and texts (`...Reads`, `...Is`, `...Printed`, `...Spelled`, and the laws of one event, one exemplar and one
sibling).

Conventions.  SHA-256 in hex is a parameter `sha: string -> string`; nothing assumes it injective, so a binding result
says "equal, or these two texts collide".  Clock values, the context reader's answer, providers and the embedding
function are parameters.  Python exceptions are `Result`s.  A `frozenset` is iterated in an arbitrary order.

## What the code does at its edges

Behaviour a caller may not expect, each with an input that shows it and, where one is known, its exact condition.

- A caller of `_derive_resume_outcome` must rule out corruption first, as its docstring says
  (`pause_resume_protocol.py:850-861`).  One that does not is told `"resumed"`:
  `CorruptSnapshotDerivedAsResumed` does it with one digit added to any snapshot's hash, and `OutcomeTruthfulIff` says
  that the outcome is right about resuming if and only if the stored hash is the recomputed one.
- `classify_resume` is documented by whether the diff set is empty (`pause_resume_protocol.py:317-318`).  The code looks
  for a material entry (`:321`), so a diff set without one resumes clean; `ResumeAnswers` follows the code.
- Redaction is described as replacing every marker (`secret_passthrough.py:52-57`).  A marker can be left in the text
  when it overlaps the sentinel `_REDACTED_`: redacting `"xx_"` of the marker `"x_"` leaves one
  (`MarkerSharingUnderscoreSurvives`).  `NeverSurvivesIff` shows that this can happen to exactly the overlapping
  markers, `SetNeverSurvivesIff` that a set is safe in every company exactly when each of its markers contains one that
  does not overlap.  For one fixed set `SafeAloneIff` gives the exact condition: redaction never leaves a marker if and
  only if it leaves none in finitely many probes, the texts of the markers' own characters shorter than twice the square
  of the product of the markers' lengths.  `SafeOnlyAlone` shows that this is more than safety in company.
- Overlay merging does not regroup when a scalar stands between two tables (`ScalarBetweenTables`);
  `MergeAssociativeIff` gives the exact condition.
- The TOML printer writes keys as they are and strings through `json.dumps`.  A key that is not bare does not come
  back: one with a dot reads as a nested table (`DottedKeyReadsNested`), one in quotes as its content
  (`QuotedKeyReadsAsContent`), one starting with `#` as a comment, and an empty one makes the text unreadable
  (`CommentAndEmptyKeys`).  Nor does a string outside the basic multilingual plane (`TwoThatDoNotReadBack`).
  `ReadsBackIff` shows that nothing else goes wrong.
- Failing the current candidate over and over ends only for chains without a repeated candidate
  (`WalkEndsIffDistinct`); the chain record does not forbid repeats, and a primary listed again as first same-family
  fallback is retried for ever (`RepeatedPrimaryNeverLeaves`).
- Separator-joined key texts identify their tuple, among tuples with hex outcome hashes, exactly under the conditions of
  the `...TextUniqueIff` lemmas.  For most key functions that is: no other segment holds the separator.  The key function
  of captured entries writes the pause audit id twice, so there an id `p<RS>q` or `p<RS>p<RS>q` is still told apart
  (`InnerRepeatIsDecoded`) and an id `p<RS>p` is not: it shares its text with the id `p` behind the step id
  `s<RS>p<RS>p` (`DoubledAuditIdIsAmbiguous`).  The one caller of that function hashes the whole pause event, audit id
  included, so the keys it emits are not affected: they identify workflow, step and event, up to a collision, exactly
  when workflow id and step id hold no separator (`EmittedKeysBind`, `EmittedTextUniqueIff`).  The text under a default
  audit id tolerates separators that do not set off another pause reason (`AuditTextUniqueIff`).

## Model

| member | source | states |
|---|---|---|
| SnapshotStripInPlace.StripDefaultFanoutResumeFields | harness-cp/src/harness_cp/pause_resume_protocol.py:587-639 | popping keys in place in a tree of dictionaries leaves the same objects reading as the specified strip, and changes no object outside the tree |
| SnapshotStripInPlace.StripPausedChildren | harness-cp/src/harness_cp/pause_resume_protocol.py:616-639 | the loop over the paused children strips each child's snapshot and nothing else |
| SnapshotStripInPlace.ModelDump | harness-cp/src/harness_cp/pause_resume_protocol.py:685-704 | a dump is a tree of containers nothing else holds and reads as the dumped JSON |
| SnapshotStripInPlace.PopFalsy | harness-cp/src/harness_cp/pause_resume_protocol.py:614-615 | an entry that is falsy or absent is gone, every other entry unchanged |
| SnapshotByteCompatibility.StripTouchesOnlyCarrierFields | harness-cp/src/harness_cp/pause_resume_protocol.py:602-615 | on any object exactly the null `synthesis_step_id` and the falsy `effect_fence_paused_branches` go, and no other entry except `paused_child_branches` is rewritten: payload keys of the same name stay covered |
| SnapshotByteCompatibility.StripReachesChildren | harness-cp/src/harness_cp/pause_resume_protocol.py:616-639 | of a paused child on any JSON, only its snapshot changes, and of that only a null `orchestrator_effect_fence_resume`, which goes, and the two fan-out carriers, each stripped; items of another shape stay as they are |
| PauseSnapshots.FalsyValues | harness-cp/src/harness_cp/pause_resume_protocol.py:614-615 | the falsy JSON values are null, false, zero, the empty text, the empty list and the empty object |
| SnapshotByteCompatibility.StripIdempotent | harness-cp/src/harness_cp/pause_resume_protocol.py:587-639 | stripping twice is stripping once, on any JSON |
| SnapshotCanonicalForm.StripFanOutDump | harness-cp/src/harness_cp/pause_resume_protocol.py:675-698 | dump, pop and strip of a fan-out carrier, at any depth of nesting, give the present-when-set form |
| SnapshotCanonicalForm.StripSnapshotDump | harness-cp/src/harness_cp/pause_resume_protocol.py:620-639 | the same for a nested child snapshot with its own carriers |
| SnapshotCanonicalForm.ComputeSnapshotHash | harness-cp/src/harness_cp/pause_resume_protocol.py:642-737 | the dictionary filled carrier by carrier, dumped and stripped in place on the way, hashes exactly the canonical text |
| SnapshotReading.HashedTextReads | harness-cp/src/harness_cp/pause_resume_protocol.py:655-737 | a JSON reader takes the hashed text whole and finds under each literal key the covered field it is named after: the ids, the step index, the summary with its entries and references, every carrier with its branches, stages, steps and fences, and each nested child snapshot at every depth; a key is there exactly when the code writes it, and no other key is; the text is the compact ASCII text of what was found |
| SnapshotCoverage.CanonicalTextDeterminesCovered | harness-cp/src/harness_cp/pause_resume_protocol.py:655-737 | two covered tuples have the same canonical text if and only if they are equal, nested snapshots and arbitrary payloads included |
| SnapshotByteCompatibility.OldBytesKeptIff | harness-cp/src/harness_cp/pause_resume_protocol.py:587-604 | a snapshot keeps the bytes of the schema without the additive fields if and only if all of them, along the whole carrier path, are at their defaults |
| SnapshotByteCompatibility.LegacyIsReset | harness-cp/src/harness_cp/pause_resume_protocol.py:587-604 | the bytes of the older schema are the present bytes of the snapshot with every additive field, along the whole carrier path, reset to its default |
| SnapshotByteCompatibility.EmptyPausedChildrenDroppedOutermostOnly | harness-cp/src/harness_cp/pause_resume_protocol.py:676-687 | dump, pop and strip of the outermost carrier lose `paused_child_branches` exactly when it is empty; dump and strip of a nested carrier never do |
| JsonText.PrintReadsBack | harness-cp/src/harness_cp/pause_resume_protocol.py:736 | a JSON reader takes any compact sorted text, ASCII or not, back to the printed value |
| JsonText.PrintInjective | harness-cp/src/harness_cp/pause_resume_protocol.py:736 | equal compact sorted texts mean equal JSON values |
| JsonPrinting.WordsPrinted | harness-cp/src/harness_cp/pause_resume_protocol.py:736 | null and the booleans are printed as `null`, `true` and `false` |
| JsonPrinting.StringsPrinted | harness-cp/src/harness_cp/pause_resume_protocol.py:736 | a string is printed character by character between two quotes |
| JsonPrinting.ShortEscapes | harness-cp/src/harness_cp/pause_resume_protocol.py:736 | the quote, the backslash, newline, return, tab, backspace and form feed take the two-character escapes |
| JsonPrinting.OtherCharacters | harness-cp/src/harness_cp/pause_resume_protocol.py:736 | every other character from the blank to the tilde stands for itself, any other is escaped with four lower-case hexadecimal digits, beyond the basic plane as a surrogate pair; without ASCII only control characters are escaped |
| JsonPrinting.NumbersPrinted | harness-cp/src/harness_cp/pause_resume_protocol.py:736 | integers are printed in decimal, digit by digit, with a minus sign when negative; floats as their `repr` |
| JsonPrinting.ArraysPrinted | harness-cp/src/harness_cp/pause_resume_protocol.py:736 | items in order in brackets, a comma and nothing else between two of them |
| JsonPrinting.ObjectsPrinted | harness-cp/src/harness_cp/pause_resume_protocol.py:736 | `"key":value` members in braces in ascending order of the keys, a comma and nothing else between two of them |
| JsonPrinting.LessAtFirstDifference | harness-cp/src/harness_cp/pause_resume_protocol.py:736 | keys are ordered by code point at the first place they differ, a key that has ended being below |
| PauseResumeProtocol.CapturePauseSnapshot | harness-cp/src/harness_cp/pause_resume_protocol.py:411-474 | the snapshot carries its inputs and the hash of its own covered part |
| PauseResumeProtocol.AttemptResume | harness-cp/src/harness_cp/pause_resume_protocol.py:476-575 | the method's checks in order give the decision `Resumption` |
| PauseResumeProtocol.ResumptionSpelled | harness-cp/src/harness_cp/pause_resume_protocol.py:518-575 | every answer with its flags, its diff summary and its fail class in the texts a caller sees, and the outcome derived from it: corrupt on a hash that is not the recomputed one, else by the anchors and the policy |
| PauseResumeProtocol.CapturedSnapshotResumes | harness-cp/src/harness_cp/pause_resume_protocol.py:411-584 | a captured snapshot never resumes as corrupt; a diff is reported iff the anchors differ; it resumes iff they agree or the policy is LENIENT; the derived outcome names the policy |
| PauseResumeProtocol.OutcomeTruthfulIff | harness-cp/src/harness_cp/pause_resume_protocol.py:850-868 | the derived outcome tells truthfully whether the workflow resumed if and only if the snapshot is not corrupt |
| PauseResumeProtocol.CorruptSnapshotDerivedAsResumed | harness-cp/src/harness_cp/pause_resume_protocol.py:850-868 | any snapshot with one digit added to its recomputed hash does not resume, and its outcome is derived as `"resumed"` |
| PauseResumeProtocol.TamperingDetectedIff | harness-cp/src/harness_cp/pause_resume_protocol.py:518-545 | content put under a captured hash is reported corrupt, before any diff, exactly when something covered changed, or the two canonical texts collide |
| PauseResumeProtocol.ChildTamperingIsCovered | harness-cp/src/harness_cp/pause_resume_protocol.py:655-698 | replacing a paused child's snapshot changes the parent's hashed text |
| PauseResumeProtocol.DiffSummaryBinds | harness-cp/src/harness_cp/pause_resume_protocol.py:747-766 | equal diff summaries mean the same two anchors, or a collision |
| PauseResumeProtocol.DiffSummaryReads | harness-cp/src/harness_cp/pause_resume_protocol.py:760-766 | a JSON reader of the hashed text finds the snapshot's anchor under `snapshot_anchor`, the current one under `current_anchor`, and no other key |
| EnginePauseSubstrate.DeterministicEnginePauseResumeSubstrate.CapturePauseSnapshot | harness-cp/src/harness_cp/pause_resume_protocol.py:204-231 | the event of this call is returned and stored under its workflow; the store keeps answering with latest captures |
| EnginePauseSubstrate.DeterministicEnginePauseResumeSubstrate.AttemptResume | harness-cp/src/harness_cp/pause_resume_protocol.py:233-255 | the answer is that for the workflow's latest capture in the whole history; the store is not written |
| EnginePauseSubstrate.DeterministicEnginePauseResumeSubstrate.HasPauseRecord | harness-cp/src/harness_cp/pause_resume_protocol.py:257-259 | true exactly when the workflow was captured at some time |
| EnginePauseSubstrate.CapturedIffLatest | harness-cp/src/harness_cp/pause_resume_protocol.py:202-267 | over every history a record exists iff the workflow was captured, and it is an event of that workflow |
| EnginePauseSubstrate.OnlyOwnCapturesMatter | harness-cp/src/harness_cp/pause_resume_protocol.py:202-267 | the latest capture depends on that workflow's own captures alone, whatever other calls came between |
| EnginePauseSubstrate.LatestCaptureCarries | harness-cp/src/harness_cp/pause_resume_protocol.py:204-231 | over every history the event a workflow is resumed from carries the time, reason, summary and summary references of its last capture call; its audit id is the provider's answer, or without a provider the digest of workflow id, reason value and summary hash set off by 0x1E |
| EnginePauseSubstrate.ResumeAnswers | harness-cp/src/harness_cp/pause_resume_protocol.py:233-255 | after any history: corruption iff never captured, revalidated iff resumed after revalidation, clean iff nothing material differs, other workflows irrelevant |
| EnginePauseSubstrate.AuditTextUniqueIff | harness-cp/src/harness_cp/pause_resume_protocol.py:208-222 | the text under a default audit id identifies workflow, reason and summary if and only if no pause reason, set off by separators, stands within the workflow id or the summary hash; separator-free texts hold none |
| EnginePauseSubstrate.DefaultAuditIdBinds | harness-cp/src/harness_cp/pause_resume_protocol.py:208-222 | then equal default audit ids mean equal workflow, reason and summary, or a collision |
| EnginePauseSubstrate.EngineLayer.Execute | harness-cp/src/harness_cp/pause_resume_protocol.py:159-174 | any program of calls, raises and nested bindings leaves the binding as it was; each call reaches the innermost bound substrate, and raises with none bound |
| EnginePauseSubstrate.BindingIsStack | harness-cp/src/harness_cp/pause_resume_protocol.py:159-174 | the calls a program delivers to a substrate, and whether it fails, are those of its steps run over an explicit stack of bindings: entering a block pushes, leaving it pops, the top takes each call, and a failure or a call over the empty stack ends the run |
| EnginePauseSubstrate.EngineLayer.AttemptResume | harness-cp/src/harness_cp/pause_resume_protocol.py:290-309 | the free function answers as the bound substrate would, or fails and reaches none |
| EnginePauseSubstrate.EngineLayer.CapturePauseSnapshot | harness-cp/src/harness_cp/pause_resume_protocol.py:270-287 | the free function captures in the bound substrate and no other, or fails and reaches none |
| IdempotencyKeys.JoinDecodesUniquely | harness-cp/src/harness_cp/pause_resume_protocol.py:924-951 | joined segments decode uniquely when one side's segments hold no separator |
| IdempotencyKeys.ProtocolTextUniqueIff | harness-cp/src/harness_cp/pause_resume_protocol.py:929-951 | among tuples with hex outcome hashes the text identifies its tuple if and only if neither identifier holds the separator |
| IdempotencyKeys.ProtocolKeysBind | harness-cp/src/harness_cp/pause_resume_protocol.py:929-951 | under that condition equal keys mean equal tuples, counter included, or a collision |
| IdempotencyKeys.ProtocolKeyIs | harness-cp/src/harness_cp/pause_resume_protocol.py:929-951 | the key is the digest of workflow id, step id, `pause-captured` or `resume-attempted`, decimal counter and outcome hash, in this order, 0x1E between two of them |
| IdempotencyKeys.CapturedTextUniqueIff | harness-cp/src/harness_cp/pause_resume_protocol.py:1021-1041 | among tuples with hex outcome hashes the text of the captured key function, which writes the audit id twice, identifies its tuple if and only if neither identifier holds the separator and the doubled audit id does not also end in a block of fewer separators written twice; a separator-free audit id never does |
| IdempotencyKeys.DoubledAuditIdIsAmbiguous | harness-cp/src/harness_cp/pause_resume_protocol.py:1021-1041 | of two separator-free parts joined to one audit id: ambiguous if and only if they are equal, and then the other tuple, with the same outcome hash, is given |
| IdempotencyKeys.InnerRepeatIsDecoded | harness-cp/src/harness_cp/pause_resume_protocol.py:1021-1041 | an audit id in which a part repeats but another one comes last is not ambiguous |
| IdempotencyKeys.CapturedKeysBind | harness-cp/src/harness_cp/pause_resume_protocol.py:1021-1041 | under that condition equal captured keys of tuples with hex outcome hashes mean equal tuples or a collision |
| IdempotencyKeys.CapturedKeyIs | harness-cp/src/harness_cp/pause_resume_protocol.py:1021-1041 | the key is the digest of workflow id, step id, the audit id twice and outcome hash, in this order, 0x1E between two of them |
| CapturedEntries.EventTextInjective | harness-cp/src/harness_cp/state_ledger_canonicalization.py:33-51 | equal canonical texts mean equal pause events, audit id, summary and references included |
| CapturedEntries.EventTextReads | harness-cp/src/harness_cp/state_ledger_canonicalization.py:33-52 | a JSON reader takes the canonical text of a pause event whole and finds time, reason value, summary, captured references and audit id, each under its own key, and no other key |
| CapturedEntries.EmittedKeyIs | harness-cp/src/harness_cp/pause_resume_protocol.py:1073-1083 | the emitted key is the digest of workflow id, step id, the event's audit id twice and the digest of the event's canonical text, 0x1E between two of them |
| CapturedEntries.EmittedKeysBind | harness-cp/src/harness_cp/pause_resume_protocol.py:1044-1081 | equal keys of emitted pause-captured entries mean the same workflow, step and pause event, whatever the audit id, or a collision, when workflow id and step id hold no separator |
| CapturedEntries.EmittedTextUniqueIff | harness-cp/src/harness_cp/pause_resume_protocol.py:1044-1081 | and only then: otherwise the same event under two other identifiers gets the same key |
| IdempotencyKeys.AttemptedTextUniqueIff | harness-cp/src/harness_cp/pause_resume_protocol.py:1110-1136 | among tuples with hex outcome hashes the text of a resume attempt identifies its tuple if and only if its identifiers, the resume event id included, hold no separator |
| IdempotencyKeys.AttemptedKeysBind | harness-cp/src/harness_cp/pause_resume_protocol.py:1110-1136 | under that condition equal attempted keys mean equal tuples or a collision |
| IdempotencyKeys.AttemptedKeyIs | harness-cp/src/harness_cp/pause_resume_protocol.py:1110-1136 | the key is the digest of workflow id, step id, resume event id, decimal attempt count and outcome hash, in this order, 0x1E between two of them |
| IdempotencyKeys.RewritingTextUniqueIff | harness-cp/src/harness_cp/hitl_as_tool_call_rewriting.py:224-246 | among tuples with hex outcome hashes the text identifies its tuple if and only if no segment holds the separator |
| IdempotencyKeys.RewritingKeysBind | harness-cp/src/harness_cp/hitl_as_tool_call_rewriting.py:224-246 | then equal rewriting keys mean equal tuples or a collision |
| IdempotencyKeys.RewritingKeyIs | harness-cp/src/harness_cp/hitl_as_tool_call_rewriting.py:224-246 | the key is the digest of workflow id, step id, tool call id, variant binding id and outcome hash, in this order, 0x1E between two of them |
| SiblingMerkleRoot.ConstructSiblingLedgerRoot | harness-cp/src/harness_cp/parent_fanout_close_entry.py:160-195 | the loop returns the root and depth of the recursive tree, and hashes exactly that tree's leaf and node texts |
| SiblingMerkleRoot.LeafIs | harness-cp/src/harness_cp/parent_fanout_close_entry.py:173-176 | the leaf of a sibling is the digest of the parent id, 0x1F and the sibling, in this order |
| SiblingMerkleRoot.RootIs | harness-cp/src/harness_cp/parent_fanout_close_entry.py:155-195 | one sibling's leaf is the root; of more the root is the digest of the first part's root, 0x1F and the root of the rest, split at the power of two `k` with `k < n <= 2k` |
| SiblingMerkleRoot.OddSiblingCarriedUp | harness-cp/src/harness_cp/parent_fanout_close_entry.py:186-192 | of three siblings the third leaf is hashed with the node of the first two |
| SiblingMerkleRoot.LeafTextsAre | harness-cp/src/harness_cp/parent_fanout_close_entry.py:173-176 | the texts hashed for the leaves are, for each sibling, the parent id, 0x1F and the sibling |
| SiblingMerkleRoot.NodeTextsAre | harness-cp/src/harness_cp/parent_fanout_close_entry.py:155-157 | the texts hashed for the inner nodes are, at every split, the two roots with 0x1F between them |
| SiblingMerkleRoot.LevelUpKeepsTree | harness-cp/src/harness_cp/parent_fanout_close_entry.py:184-194 | hashing one level with odd-node promotion keeps the recursive root and spends that level's share of the nodes |
| SiblingMerkleRoot.SplitUnique | harness-cp/src/harness_cp/parent_fanout_close_entry.py:184-194 | the split is the only power of two with `k < n <= 2k` |
| SiblingMerkleRoot.HashesAndHeight | harness-cp/src/harness_cp/parent_fanout_close_entry.py:173-195 | `n` leaf and `n - 1` parent hashes; height `h` is the least with `n <= 2^h` |
| SiblingMerkleRoot.RootBindsSiblings | harness-cp/src/harness_cp/parent_fanout_close_entry.py:155-195 | same parent, leaf count and root: the same siblings in the same order, or two texts actually hashed for the two roots collide |
| SiblingMerkleRoot.JoinedInjective | harness-cp/src/harness_cp/parent_fanout_close_entry.py:155-182 | unit-separator joining is unambiguous for separator-free first parts and under a fixed parent |
| SiblingMerkleRoot.ConstructParentFanoutCloseEntry | harness-cp/src/harness_cp/parent_fanout_close_entry.py:198-225 | the entry carries its inputs and the recursive root, depth and count of its siblings; the empty fan-out has the hash of the empty text |
| SecretRedaction.RedactSecretsInOutput | harness-as/src/harness_as/secret_passthrough.py:52-62 | the loop over the set is the redaction under some order of exactly its elements, and leaves no non-empty marker when no probe keeps one |
| MarkerReplacement.ReplaceIsSplitAndJoin | harness-as/src/harness_as/secret_passthrough.py:59-61 | the text and its replacement are the same pieces, none holding the marker, joined with the marker and with the sentinel |
| MarkerReplacement.FirstOccurrenceReplaced | harness-as/src/harness_as/secret_passthrough.py:59-61 | the first occurrence becomes `_REDACTED_` and replacement goes on behind it |
| Substrings.ContainsIffBetween | harness-as/src/harness_as/secret_negative_observation.py:55-56 | a text contains another exactly when it is that text between two others |
| MarkerReplacement.NeverSurvivesIff | harness-as/src/harness_as/secret_passthrough.py:52-62 | a marker is gone after every redaction, whatever the text, the other markers and the order, if and only if it does not overlap the sentinel |
| RedactionCoverage.SetNeverSurvivesIff | harness-as/src/harness_as/secret_passthrough.py:52-62 | a set of markers is gone after every redaction by a set that includes it, whatever the text, the further markers and the order, if and only if each non-empty one contains one of the set that does not overlap the sentinel |
| RedactionStream.StreamReplaces | harness-as/src/harness_as/secret_passthrough.py:52-62 | replacing a marker can be done reading each character once and holding only a start of the marker, which also tells whether the marker occurs |
| RedactionStream.ShortSurvivor | harness-as/src/harness_as/secret_passthrough.py:52-62 | a text that keeps a marker can be cut down to one with fewer characters than the stages of the loop have states together |
| RedactionStream.SafeAloneIff | harness-as/src/harness_as/secret_passthrough.py:52-62 | redaction by exactly a given set never leaves one of its markers, in any text and any order, if and only if it leaves none in the finitely many short texts of the markers' own characters |
| MarkerReplacement.CoveredThoughOverlapping | harness-as/src/harness_as/secret_passthrough.py:52-62 | a set that meets this condition although one of its two markers overlaps |
| RedactionStream.CoveredIsSafe | harness-as/src/harness_as/secret_passthrough.py:52-62 | a set that is safe in every company is safe alone |
| RedactionAlone.SafeOnlyAlone | harness-as/src/harness_as/secret_passthrough.py:52-62 | two markers that miss the condition for every company, and that no redaction by just the two, of any text and in either order, leaves behind |
| MarkerReplacement.DisjointCharactersDoNotOverlap | harness-as/src/harness_as/secret_passthrough.py:31-62 | sharing no character with the sentinel is enough |
| MarkerReplacement.MarkerSharingUnderscoreSurvives | harness-as/src/harness_as/secret_passthrough.py:52-62 | a concrete text and marker for which redaction leaves the marker in place |
| MarkerReplacement.MarkerFreeUnchanged | harness-as/src/harness_as/secret_passthrough.py:52-62 | text without markers is unchanged in every order |
| SecretRedaction.RedactedTextAccepted | harness-as/src/harness_as/secret_negative_observation.py:55-74 | when no probe keeps a marker, the prefix detector accepts every redacted text, and redacting again in any order changes nothing |
| SecretRedaction.DetectorsReport | harness-as/src/harness_as/secret_negative_observation.py:55-116 | each detector reports, with its own surface and place, exactly when a non-empty marker stands in a string, or an attribute has one of the four excluded names |
| SecretRedaction.AcceptedIffSafe | harness-as/src/harness_as/secret_negative_observation.py:55-74 | the prefix detector accepts what redaction by a set makes of every text, in every order, if and only if no probe keeps a marker |
| SecretRedaction.RedactedAttributesAccepted | harness-as/src/harness_as/secret_negative_observation.py:77-116 | for such sets redacted span attributes are accepted if and only if no attribute name is excluded, redacted ledger entries always; names and non-string values are kept |
| ConfigOverlay.MergeConfig | tools/apply_example_runtime_overlay.py:29-37 | the loop over the overlay's keys, in any order, gives the recursive merge |
| ConfigOverlay.MergedLookup | tools/apply_example_runtime_overlay.py:29-37 | at every path: the overlay's value where it has a non-table, the merge where both have tables, the base's unless the overlay cuts above it |
| ConfigOverlay.MergedKeyByKey | tools/apply_example_runtime_overlay.py:29-37 | an overlay of one entry replaces what stands under its key, unless both are tables, which merge; an overlay of two parts lays one after the other |
| ConfigOverlay.EmptyIsIdentity | tools/apply_example_runtime_overlay.py:29-37 | the empty table is an identity on both sides |
| ConfigOverlay.MergeIdempotent | tools/apply_example_runtime_overlay.py:29-37 | merging a configuration into itself changes nothing |
| ConfigOverlay.RepeatedOverlayAbsorbed | tools/apply_example_runtime_overlay.py:29-37 | applying an overlay twice is applying it once |
| ConfigOverlay.MergeAssociativeIff | tools/apply_example_runtime_overlay.py:29-37 | overlays may be regrouped if and only if, wherever the middle one hides a table, the last absorbs the first |
| ConfigOverlay.NoTableHiddenRegroups | tools/apply_example_runtime_overlay.py:29-37 | in particular when the middle one never puts a non-table between two tables |
| ConfigOverlay.ScalarBetweenTables | tools/apply_example_runtime_overlay.py:29-37 | three configurations that cannot be regrouped |
| TomlPrintedWeights.ValueReadsBackIff | tools/apply_example_runtime_overlay.py:40-54 | a printed value with any keys reads back if and only if its inline tables have bare keys and its strings lie in the basic plane |
| QuotedText.EscapedReadsBackIffBasic | tools/apply_example_runtime_overlay.py:41-42 | a reader without surrogate pairs takes an escaped string back if and only if it lies in the basic plane |
| TomlRendering.RenderTable | tools/apply_example_runtime_overlay.py:57-75 | the recursive loop writes the texts of the specified lines, or refuses exactly when some value has no TOML text |
| TomlRendering.RenderToml | tools/apply_example_runtime_overlay.py:78-88 | the document text, or a refusal exactly when some value has no TOML text |
| TomlPrinting.PrintableIs | tools/apply_example_runtime_overlay.py:40-54 | a value is refused exactly when it is, or holds at some depth, neither text, number, boolean, list nor table |
| TomlPrinting.PlainValuesPrinted | tools/apply_example_runtime_overlay.py:41-46 | strings as in JSON, numbers plainly, booleans as `true` and `false` |
| TomlPrinting.ListsPrinted | tools/apply_example_runtime_overlay.py:50-51 | items in brackets, a comma and a blank between two of them |
| TomlPrinting.InlineTablesPrinted | tools/apply_example_runtime_overlay.py:47-49 | `key = value` pairs in braces set off by blanks, a comma and a blank between two of them |
| TomlPrinting.HeadersPrinted | tools/apply_example_runtime_overlay.py:67-68 | a header is the keys on the way in brackets, a dot between two of them |
| TomlPrinting.ScalarsPrinted | tools/apply_example_runtime_overlay.py:69-71 | a table of scalars is its header, one `key = value` line for each and a blank line if there are any; a document of scalars the same without a header |
| TomlPrinting.TrailingTablePrinted | tools/apply_example_runtime_overlay.py:73-87 | a table behind other entries adds its own lines, under the longer path, behind theirs |
| TomlPrinting.ScalarMovesUp | tools/apply_example_runtime_overlay.py:58-65 | a scalar behind a table is printed in front of it |
| TomlPrinting.DocumentPrinted | tools/apply_example_runtime_overlay.py:88 | the lines with a newline between two of them, trailing whitespace cut and one newline at the end |
| TomlDocument.SubtablesRun | tools/apply_example_runtime_overlay.py:57-75 | under the document rules the sub-tables of a table add exactly their entries below it and define only headers below their own names |
| TomlDocument.LinesMeanDocument | tools/apply_example_runtime_overlay.py:57-88 | interpreting the lines, with repeated headers and keys refused, rebuilds the configuration |
| TomlWeights.ReadValuePrice | tools/apply_example_runtime_overlay.py:40-54 | of any text whatever a reader of quoted, literal, dotted and bare keys gets a value that costs no more than the text it read weighs |
| TomlRoundTrip.DocumentPrice | tools/apply_example_runtime_overlay.py:57-88 | of a printed document, keys as they may be, the reader gets no more than the configuration weighs |
| TomlRoundTrip.ReadsBackIff | tools/apply_example_runtime_overlay.py:40-88 | reading the printed text of a configuration, its keys and strings as they may be, gives it back if and only if its keys are bare and its strings lie in the basic plane |
| OverlayRoundTrip.TwoThatDoNotReadBack | tools/apply_example_runtime_overlay.py:40-88 | two configurations that do not come back |
| OverlayRoundTrip.DottedKeyReadsNested | tools/apply_example_runtime_overlay.py:57-88 | a key of two bare parts and a dot, over a value that itself reads back, reads as a nested table |
| OverlayRoundTrip.QuotedKeyReadsAsContent | tools/apply_example_runtime_overlay.py:57-88 | a key that is a quoted text of the basic plane, over such a value, reads as that text |
| OverlayRoundTrip.CommentAndEmptyKeys | tools/apply_example_runtime_overlay.py:57-88 | an entry whose key is `#` and text without control characters reads as nothing, one with an empty key makes the text unreadable |
| OverlayRoundTrip.MaterializedOverlayReadsBack | tools/apply_example_runtime_overlay.py:97-114 | for two configurations with bare keys and strings of the basic plane, merging, printing in any insertion order and reading gives the merge |
| EmbeddingRouting.EmbeddingQueryText | harness-cp/src/harness_cp/embedding_routing.py:117-136 | the joined, stripped string parts; empty exactly when every part is whitespace |
| EmbeddingRouting.TextsCollected | harness-cp/src/harness_cp/embedding_routing.py:123-135 | the parts are every string content and every string part in order, a mapping giving its text if that is a string, and nothing else |
| PyStrings.LinesJoined | harness-cp/src/harness_cp/embedding_routing.py:136 | one newline between two parts |
| PyStrings.StripTakesBothEnds | harness-cp/src/harness_cp/embedding_routing.py:136 | stripping takes all the whitespace off both ends and nothing else |
| PyStrings.WhitespaceIs | harness-cp/src/harness_cp/embedding_routing.py:136 | the twenty-nine characters that count as whitespace |
| EmbeddingRouting.EmbeddingDecision | harness-cp/src/harness_cp/embedding_routing.py:152-208 | errors for `k < 1` and for unequal dimensions; `None` for an empty query; otherwise `None` iff the best similarity of all is below the threshold, else the winner among the nearest |
| EmbeddingRouting.EachExemplarScored | harness-cp/src/harness_cp/embedding_routing.py:178-195 | each exemplar is scored by the dot product of the normalised query with its own normalised vector, under its own candidate |
| EmbeddingRouting.AnswerRanks | harness-cp/src/harness_cp/embedding_routing.py:192-208 | `None` iff every similarity is below the threshold; else the voters come in descending similarity, ties by name, and the answer is a voter that none outdoes in votes, then in summed similarity, then in name |
| EmbeddingRouting.VotesCounted | harness-cp/src/harness_cp/embedding_routing.py:203-206 | each place among the nearest gives its candidate one vote and its similarity |
| EmbeddingRouting.MultipleOfQuery | harness-cp/src/harness_cp/embedding_routing.py:139-208 | one exemplar that is a positive multiple of the query is answered for thresholds up to one, one that is a negative multiple is declined for every threshold above minus one |
| EmbeddingRouting.Aggregate | harness-cp/src/harness_cp/embedding_routing.py:203-206 | the loop's dictionary holds each candidate's votes and summed similarity, and no other candidate |
| EmbeddingRouting.MaxCandidate | harness-cp/src/harness_cp/embedding_routing.py:207 | the maximum outranks every other candidate in votes, then sum, then name |
| EmbeddingRouting.WinnerUnique | harness-cp/src/harness_cp/embedding_routing.py:207-208 | there is at most one such candidate |
| EmbeddingRouting.OrderedUnique | harness-cp/src/harness_cp/embedding_routing.py:192-195 | the sort key orders any bag of scored exemplars in one way only, ties included |
| EmbeddingRouting.CorpusOrderIrrelevant | harness-cp/src/harness_cp/embedding_routing.py:178-208 | permuting the corpus changes neither the scored sequence nor the nearest nor the answer |
| EmbeddingRouting.NearestAreNearest | harness-cp/src/harness_cp/embedding_routing.py:181-199 | the voters are min(k, n) of the corpus, none after anyone left out, and their votes add up to that number |
| EmbeddingRouting.ThresholdAboveOneDeclines | harness-cp/src/harness_cp/embedding_routing.py:196-198 | a threshold above one always declines |
| UnitVectors.SimilarityInRange | harness-cp/src/harness_cp/embedding_routing.py:139-149 | similarities of normalised vectors lie in [-1, 1], zero vectors included |
| UnitVectors.ScaledVectorScoresOne | harness-cp/src/harness_cp/embedding_routing.py:139-149 | a positive multiple of a non-zero vector normalises to the same vector and scores exactly one |
| UnitVectors.DotLaws | harness-cp/src/harness_cp/embedding_routing.py:148-149 | the dot product is symmetric and linear in each argument and reads a coordinate off against its axis, which determines it |
| UnitVectors.NormalizeKeepsDirection | harness-cp/src/harness_cp/embedding_routing.py:139-145 | normalising divides by the length, and leaves a vector of length zero alone |
| UnitVectors.NegativeMultipleScoresMinusOne | harness-cp/src/harness_cp/embedding_routing.py:139-149 | a negative multiple of a non-zero vector scores exactly minus one |
| FallbackChain.OrderedCandidates | harness-cp/src/harness_cp/cross_family_fallback_chain.py:103-111 | the primary stands first, then every same-family fallback in its order, then every cross-family one, the terminal last, and nothing else |
| FallbackChain.FallThroughOrderUnique | harness-cp/src/harness_cp/cross_family_fallback_chain.py:103-111 | there is one list of which this is true |
| FallbackChain.TraversalIs | harness-cp/src/harness_cp/cross_family_fallback_chain.py:103-111 | primary, same-family fallbacks, cross-family fallbacks and terminal, concatenated in this order |
| FallbackChain.FailureAnswers | harness-cp/src/harness_cp/cross_family_fallback_chain.py:114-144 | a candidate outside the chain has no successor and raises no flag; one inside is followed by the candidate after its first place, and both flags say whether the families differ |
| FallbackChain.WalkEndsIffDistinct | harness-cp/src/harness_cp/cross_family_fallback_chain.py:103-144 | failing over and over ends if and only if no candidate is repeated |
| FallbackChain.DistinctVisitedInOrder | harness-cp/src/harness_cp/cross_family_fallback_chain.py:103-144 | then each candidate is used once, in traversal order |
| FallbackChain.RepeatCycles | harness-cp/src/harness_cp/cross_family_fallback_chain.py:123-144 | otherwise the walk goes round from the first repeat, and what stands after it is never reached |
| FallbackChain.ResetsAreFamilyChanges | harness-cp/src/harness_cp/cross_family_fallback_chain.py:138-144 | cache resets along the walk are the adjacent family changes |
| FallbackChain.FamilyChangesCounted | harness-cp/src/harness_cp/cross_family_fallback_chain.py:138-144 | family changes are the places whose family differs from the one before, counted |
| FallbackChain.RepeatedPrimaryNeverLeaves | harness-cp/src/harness_cp/cross_family_fallback_chain.py:103-144 | a primary repeated as first fallback is tried for ever |
| CostAttributionJoin.JoinCostAttributionByIdempotencyKey | harness-as/src/harness_as/sandbox_event_idempotency.py:102-135 | one entry for each key of a keyed exit event, holding the sums over exactly that key's events |
| CostAttributionJoin.JoinOfOneExit | harness-as/src/harness_as/sandbox_event_idempotency.py:113-125 | one exit event under a string `idempotency_key` gives one entry of one event: milliseconds from `sandbox.cost.tier_overhead_ms` when that is an integer or a boolean, dollars from `sandbox.cost.tier_overhead_usd` when that is an integer, a float or a boolean, else zero |
| CostAttributionJoin.JoinOfOneOther | harness-as/src/harness_as/sandbox_event_idempotency.py:113-118 | an event of another kind, or without a string key, gives no entry |
| CostAttributionJoin.JoinAddsUp | harness-as/src/harness_as/sandbox_event_idempotency.py:119-125 | of two batches together: the entry of the batch that has the key, or field by field the sum of both |
| CostAttributionJoin.JoinConserves | harness-as/src/harness_as/sandbox_event_idempotency.py:112-135 | iterated in any order, the entries add up to the cost of all keyed exit events |
| CostAttributionJoin.JoinOfConcatenation | harness-as/src/harness_as/sandbox_event_idempotency.py:112-135 | joining two batches together is merging their joins key by key |
| CostAttributionJoin.JoinAnyOrder | harness-as/src/harness_as/sandbox_event_idempotency.py:112-135 | the order of the events does not matter |
| CostAttributionJoin.JoinUnique | harness-as/src/harness_as/sandbox_event_idempotency.py:126-135 | the join is determined by the events |
| CostAttributionJoin.AttachedBatchHasOneEntry | harness-as/src/harness_as/sandbox_event_idempotency.py:69-85 | after one parent key is attached to a batch, its join is one entry with the cost of every exit event, or empty |
| CostAttributionJoin.AttachKeepsTheRest | harness-as/src/harness_as/sandbox_event_idempotency.py:69-85 | attaching a key sets the `idempotency_key` attribute and changes nothing else |

## Left out

- Asynchrony, ledger writers, tracers, span emission, the wall clock: the emit functions do I/O; only their keys are modelled.
- SHA-256 itself and UTF-8 encoding: `sha` is a parameter on texts; RootBindsSiblings takes from it only that digests hold no unit separator, EmittedKeysBind that they hold no record separator.
- Lone surrogates in Python strings: a Dafny `char` is a Unicode scalar value.
- Pydantic validation of records, of exemplars and of the corpus; an empty corpus cannot be constructed, so the classifier requires a non-empty one.
- Payload values are already JSON: tuples and lists are not told apart, and `snapshot_capture_at_pause` is text rather than bytes.
- Floats: JSON and TOML floats are their `repr` text; the classifier and the cost join compute over `real`, without rounding.
- The six carriers of a snapshot are grouped in one record, in the model only; at most one being set is not required.
- The TOML reader reads bare, quoted, literal and dotted keys, basic and literal strings, decimal numbers, booleans, arrays, inline tables, headers and comments.  It refuses multi-line strings, arrays over several lines, arrays of tables, dates, numbers in other bases or with underscores, `\U` escapes and carriage returns at line ends: the printer writes none of these for bare keys.
- File reading and writing, path placeholders and command-line handling of the overlay tool.
- Derivation of sub-agent keys: an injected strategy is called through.
- The read-only description of the Merkle steps, variant selection and tool-call rewriting: finite tables and record construction.
- Sole-resolution-path and token-passthrough detection: branches on given values.
- Providers of the engine substrate are pure functions; one that calls back into the substrate is not modelled.
- Concurrent tasks sharing the process-wide binding: scripts run one after another.
- How the interpreter searches for a substring: `str.replace` is the documented left-to-right, non-overlapping replacement.
