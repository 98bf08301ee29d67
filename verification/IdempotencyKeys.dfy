/** Record-separator joined idempotency keys: when the joined text decodes uniquely, and therefore when
    two equal keys mean equal tuples or a collision of the hash.
    `sha` stands for SHA-256 in hex over the UTF-8 encoding, which leaves 0x1E bytes to U+001E alone. */
module IdempotencyKeys {
  import opened Digests
  import opened Separators
  import opened Sequences
  import Decimals

  const SEPARATOR: char := 0x1E as char

  /** `b"\x1e".join(segments)`. */
  function Join(segments: seq<string>): string {
    if segments == [] then ""
    else if |segments| == 1 then segments[0]
    else segments[0] + [SEPARATOR] + Join(segments[1..])
  }

  lemma JoinUnfold(segments: seq<string>)
    requires segments != []
    ensures Join(segments)
         == if |segments| == 1 then segments[0] else segments[0] + [SEPARATOR] + Join(segments[1..])
  {
  }

  function SeparatorCount(s: string): nat {
    if s == "" then 0 else (if s[0] == SEPARATOR then 1 else 0) + SeparatorCount(s[1..])
  }

  lemma {:induction false} CountOfConcat(a: string, b: string)
    ensures SeparatorCount(a + b) == SeparatorCount(a) + SeparatorCount(b)
  {
    if a == "" {
      assert a + b == b;
    } else {
      assert (a + b)[1..] == a[1..] + b;
      CountOfConcat(a[1..], b);
    }
  }

  lemma {:induction false} CountZero(s: string)
    ensures SeparatorCount(s) == 0 <==> Free(SEPARATOR, s)
  {
    if s != "" {
      CountZero(s[1..]);
      assert s == [s[0]] + s[1..];
      assert Free(SEPARATOR, s) <==> s[0] != SEPARATOR && Free(SEPARATOR, s[1..]);
    }
  }

  /** Joining adds one separator less than there are segments: with none inside, the count is exact. */
  lemma {:induction false} CountOfJoin(segments: seq<string>)
    requires segments != []
    ensures SeparatorCount(Join(segments)) >= |segments| - 1
    ensures SeparatorCount(Join(segments)) == |segments| - 1 <==> AllFree(SEPARATOR, segments)
  {
    CountZero(segments[0]);
    if |segments| > 1 {
      CountOfJoin(segments[1..]);
      CountOfConcat(segments[0] + [SEPARATOR], Join(segments[1..]));
      CountOfConcat(segments[0], [SEPARATOR]);
      assert SeparatorCount([SEPARATOR]) == 1;
      assert segments == [segments[0]] + segments[1..];
      assert AllFree(SEPARATOR, segments) <==> Free(SEPARATOR, segments[0]) && AllFree(SEPARATOR, segments[1..]);
    }
  }

  lemma {:induction false} FreeJoinInjective(xs: seq<string>, ys: seq<string>)
    requires xs != [] && |xs| == |ys| && AllFree(SEPARATOR, xs) && AllFree(SEPARATOR, ys) && Join(xs) == Join(ys)
    ensures xs == ys
  {
    if |xs| == 1 {
      assert xs == [xs[0]] && ys == [ys[0]];
    } else {
      HeadsAgree(SEPARATOR, xs[0], Join(xs[1..]), ys[0], Join(ys[1..]));
      FreeJoinInjective(xs[1..], ys[1..]);
      assert xs == [xs[0]] + xs[1..] && ys == [ys[0]] + ys[1..];
    }
  }

  /** A joined text of separator-free segments decodes in one way only, even against segment lists
      that do contain separators. */
  lemma JoinDecodesUniquely(xs: seq<string>, ys: seq<string>)
    requires xs != [] && |xs| == |ys| && AllFree(SEPARATOR, xs) && Join(xs) == Join(ys)
    ensures xs == ys
  {
    CountOfJoin(xs);
    CountOfJoin(ys);
    FreeJoinInjective(xs, ys);
  }

  /** Moving a separator from a segment to its neighbour leaves the joined text as it was. */
  lemma ShiftRight(a: string, b: string, next: string, rest: seq<string>)
    ensures Join([a + [SEPARATOR] + b, next] + rest) == Join([a, b + [SEPARATOR] + next] + rest)
  {
    var u, v := [a + [SEPARATOR] + b, next] + rest, [a, b + [SEPARATOR] + next] + rest;
    assert u[1..] == [next] + rest && v[1..] == [b + [SEPARATOR] + next] + rest;
    if rest != [] {
      assert u[1..][1..] == rest && v[1..][1..] == rest;
    }
  }

  lemma JoinCons(s: string, us: seq<string>, vs: seq<string>)
    requires us != [] && vs != [] && Join(us) == Join(vs)
    ensures Join([s] + us) == Join([s] + vs)
  {
    assert ([s] + us)[1..] == us && ([s] + vs)[1..] == vs;
  }

  // ---------------------------------------------------------------- the four key families

  datatype PauseResumeEventKind = PauseCaptured | ResumeAttempted

  function EventKindText(k: PauseResumeEventKind): string {
    match k
    case PauseCaptured => "pause-captured"
    case ResumeAttempted => "resume-attempted"
  }

  datatype ProtocolKey = ProtocolKey(
    workflowId: string, stepId: string, eventKind: PauseResumeEventKind, eventSequenceId: int, outcomeHash: string)

  datatype CapturedKey = CapturedKey(
    workflowId: string, stepId: string, pauseAuditEntryId: string, outcomeHash: string)

  datatype AttemptedKey = AttemptedKey(
    workflowId: string, stepId: string, resumeEventId: string, resumeAttemptCount: int, outcomeHash: string)

  datatype RewritingKey = RewritingKey(
    workflowId: string, stepId: string, toolCallId: string, variantBindingId: string, outcomeHash: string)

  function ProtocolSegments(k: ProtocolKey): seq<string> {
    [k.workflowId, k.stepId, EventKindText(k.eventKind), Decimals.IntText(k.eventSequenceId), k.outcomeHash]
  }

  function CapturedSegments(k: CapturedKey): seq<string> {
    [k.workflowId, k.stepId, k.pauseAuditEntryId, k.pauseAuditEntryId, k.outcomeHash]
  }

  function AttemptedSegments(k: AttemptedKey): seq<string> {
    [k.workflowId, k.stepId, k.resumeEventId, Decimals.IntText(k.resumeAttemptCount), k.outcomeHash]
  }

  function RewritingSegments(k: RewritingKey): seq<string> {
    [k.workflowId, k.stepId, k.toolCallId, k.variantBindingId, k.outcomeHash]
  }

  function PauseResumeIdempotencyKey(sha: string -> string, k: ProtocolKey): string {
    sha(Join(ProtocolSegments(k)))
  }

  function PauseCapturedIdempotencyKey(sha: string -> string, k: CapturedKey): string {
    sha(Join(CapturedSegments(k)))
  }

  function ResumeAttemptedIdempotencyKey(sha: string -> string, k: AttemptedKey): string {
    sha(Join(AttemptedSegments(k)))
  }

  function HitlRewritingIdempotencyKey(sha: string -> string, k: RewritingKey): string {
    sha(Join(RewritingSegments(k)))
  }

  lemma IntTextSeparatorFree(n: int)
    ensures Free(SEPARATOR, Decimals.IntText(n))
  {
  }

  // ---- the hashed texts written out, 0x1E being the record separator

  lemma JoinThreeIs(a: string, b: string, c: string)
    ensures var rs := [0x1E as char]; Join([a, b, c]) == a + rs + b + rs + c
  {
    var rs := [0x1E as char];
    JoinUnfold([a, b, c]);
    JoinUnfold([b, c]);
    JoinUnfold([c]);
    assert [a, b, c][1..] == [b, c] && [b, c][1..] == [c];
    hide Join;
    assert a + rs + (b + rs + c) == a + rs + b + rs + c;
  }

  lemma JoinFiveIs(a: string, b: string, c: string, d: string, e: string)
    ensures var rs := [0x1E as char]; Join([a, b, c, d, e]) == a + rs + b + rs + c + rs + d + rs + e
  {
    var rs := [0x1E as char];
    JoinUnfold([a, b, c, d, e]);
    JoinUnfold([b, c, d, e]);
    JoinThreeIs(c, d, e);
    assert [a, b, c, d, e][1..] == [b, c, d, e] && [b, c, d, e][1..] == [c, d, e];
    hide Join;
    assert a + rs + (b + rs + (c + rs + d + rs + e)) == a + rs + b + rs + c + rs + d + rs + e;
  }

  /** Protocol entries: workflow, step, event kind, decimal counter, outcome hash. */
  lemma ProtocolKeyIs(sha: string -> string, k: ProtocolKey)
    ensures var (rs, n) := ([0x1E as char], Decimals.IntText(k.eventSequenceId));
            && (k.eventKind == PauseCaptured ==>
                  PauseResumeIdempotencyKey(sha, k)
                  == sha(k.workflowId + rs + k.stepId + rs + "pause-captured" + rs + n + rs + k.outcomeHash))
            && (k.eventKind == ResumeAttempted ==>
                  PauseResumeIdempotencyKey(sha, k)
                  == sha(k.workflowId + rs + k.stepId + rs + "resume-attempted" + rs + n + rs + k.outcomeHash))
  {
    hide Join;
    hide Decimals.IntText;
    JoinFiveIs(k.workflowId, k.stepId, EventKindText(k.eventKind), Decimals.IntText(k.eventSequenceId), k.outcomeHash);
  }

  /** Captured entries: workflow, step, the audit id twice, outcome hash. */
  lemma CapturedKeyIs(sha: string -> string, k: CapturedKey)
    ensures var (rs, a) := ([0x1E as char], k.pauseAuditEntryId);
            PauseCapturedIdempotencyKey(sha, k)
            == sha(k.workflowId + rs + k.stepId + rs + a + rs + a + rs + k.outcomeHash)
  {
    hide Join;
    JoinFiveIs(k.workflowId, k.stepId, k.pauseAuditEntryId, k.pauseAuditEntryId, k.outcomeHash);
  }

  /** Attempted entries: workflow, step, resume event, decimal attempt count, outcome hash. */
  lemma AttemptedKeyIs(sha: string -> string, k: AttemptedKey)
    ensures var (rs, n) := ([0x1E as char], Decimals.IntText(k.resumeAttemptCount));
            ResumeAttemptedIdempotencyKey(sha, k)
            == sha(k.workflowId + rs + k.stepId + rs + k.resumeEventId + rs + n + rs + k.outcomeHash)
  {
    hide Join;
    hide Decimals.IntText;
    JoinFiveIs(k.workflowId, k.stepId, k.resumeEventId, Decimals.IntText(k.resumeAttemptCount), k.outcomeHash);
  }

  /** Rewriting entries: workflow, step, tool call, variant binding, outcome hash. */
  lemma RewritingKeyIs(sha: string -> string, k: RewritingKey)
    ensures var rs := [0x1E as char];
            HitlRewritingIdempotencyKey(sha, k)
            == sha(k.workflowId + rs + k.stepId + rs + k.toolCallId + rs + k.variantBindingId + rs + k.outcomeHash)
  {
    hide Join;
    JoinFiveIs(k.workflowId, k.stepId, k.toolCallId, k.variantBindingId, k.outcomeHash);
  }

  // ---- workflow-layer protocol entries

  lemma ProtocolSegmentsInjective(x: ProtocolKey, y: ProtocolKey)
    requires ProtocolSegments(x) == ProtocolSegments(y)
    ensures x == y
  {
    var sx, sy := ProtocolSegments(x), ProtocolSegments(y);
    assert sx[0] == sy[0] && sx[1] == sy[1] && sx[2] == sy[2] && sx[3] == sy[3] && sx[4] == sy[4];
    Decimals.IntTextInjective(x.eventSequenceId, y.eventSequenceId);
  }

  lemma ProtocolSegmentsFree(x: ProtocolKey)
    requires Free(SEPARATOR, x.workflowId) && Free(SEPARATOR, x.stepId) && Free(SEPARATOR, x.outcomeHash)
    ensures AllFree(SEPARATOR, ProtocolSegments(x))
  {
    IntTextSeparatorFree(x.eventSequenceId);
  }

  lemma OnlyProtocolReading(x: ProtocolKey, y: ProtocolKey)
    requires Free(SEPARATOR, x.workflowId) && Free(SEPARATOR, x.stepId) && Free(SEPARATOR, x.outcomeHash)
    requires Join(ProtocolSegments(y)) == Join(ProtocolSegments(x))
    ensures y == x
  {
    hide Join;
    hide Free;
    hide AllFree;
    hide Decimals.IntText;
    ProtocolSegmentsFree(x);
    JoinDecodesUniquely(ProtocolSegments(x), ProtocolSegments(y));
    ProtocolSegmentsInjective(x, y);
  }

  /** Among tuples with a hex outcome hash, the text identifies its tuple exactly when neither identifier
      holds a separator: the enum value and the decimal counter never do. */
  lemma ProtocolTextUniqueIff(x: ProtocolKey)
    requires Free(SEPARATOR, x.outcomeHash)
    ensures (forall y: ProtocolKey |
               Free(SEPARATOR, y.outcomeHash) && Join(ProtocolSegments(y)) == Join(ProtocolSegments(x)) :: y == x)
            <==> Free(SEPARATOR, x.workflowId) && Free(SEPARATOR, x.stepId)
  {
    hide *;
    if Free(SEPARATOR, x.workflowId) && Free(SEPARATOR, x.stepId) {
      forall y: ProtocolKey | Join(ProtocolSegments(y)) == Join(ProtocolSegments(x)) ensures y == x {
        OnlyProtocolReading(x, y);
      }
    } else {
      var y := OtherProtocolReading(x);
    }
  }

  lemma OtherProtocolReading(x: ProtocolKey) returns (z: ProtocolKey)
    requires !(Free(SEPARATOR, x.workflowId) && Free(SEPARATOR, x.stepId))
    ensures z != x && z.outcomeHash == x.outcomeHash && Join(ProtocolSegments(z)) == Join(ProtocolSegments(x))
  {
    hide Join;
    hide Free;
    var sx := ProtocolSegments(x);
    var y := ShiftedIds(x.workflowId, x.stepId, sx[2..]);
    z := x.(workflowId := y.0, stepId := y.1);
    assert ProtocolSegments(z) == [y.0, y.1] + sx[2..] && sx == [x.workflowId, x.stepId] + sx[2..];
  }

  /** If either of two leading identifiers holds a separator, another pair joins to the same text. */
  lemma ShiftedIds(w: string, s: string, rest: seq<string>) returns (r: (string, string))
    requires !Free(SEPARATOR, w) || !Free(SEPARATOR, s)
    ensures r != (w, s) && Join([r.0, r.1] + rest) == Join([w, s] + rest)
  {
    if !Free(SEPARATOR, w) {
      var a, b := SplitAtSeparator(SEPARATOR, w);
      r := (a, b + [SEPARATOR] + s);
      ShiftRight(a, b, s, rest);
      assert |r.0| < |w|;
    } else {
      var a, b := SplitAtSeparator(SEPARATOR, s);
      r := (w + [SEPARATOR] + a, b);
      ShiftRight(w, a, b, rest);
      assert w + [SEPARATOR] + a != w;
      assert s == a + [SEPARATOR] + b;
    }
  }

  lemma ProtocolKeysBind(sha: string -> string, x: ProtocolKey, y: ProtocolKey)
    requires Free(SEPARATOR, x.workflowId) && Free(SEPARATOR, x.stepId) && Free(SEPARATOR, x.outcomeHash)
    requires PauseResumeIdempotencyKey(sha, x) == PauseResumeIdempotencyKey(sha, y)
    ensures x == y || Collide(sha, Join(ProtocolSegments(x)), Join(ProtocolSegments(y)))
  {
    hide Join;
    if Join(ProtocolSegments(x)) == Join(ProtocolSegments(y)) { OnlyProtocolReading(x, y); }
  }

  // ---- engine-layer captured entries

  /** A block of the text written twice in a row, set off by separators on all sides. */
  function Twice(block: string): string {
    [SEPARATOR] + block + [SEPARATOR] + block + [SEPARATOR]
  }

  /** The doubled audit id also ends in some block with fewer separators, written twice. */
  ghost predicate EndsInShorterRepeat(auditId: string) {
    exists block: string :: ShorterEnding(auditId, block)
  }

  ghost predicate ShorterEnding(auditId: string, block: string) {
    SeparatorCount(block) < SeparatorCount(auditId) && EndsWith(Twice(auditId), Twice(block))
  }

  predicate EndsWith(t: string, end: string) {
    |end| <= |t| && t[|t| - |end|..] == end
  }

  function CapturedText(k: CapturedKey): string {
    k.workflowId + [SEPARATOR] + k.stepId + Twice(k.pauseAuditEntryId) + k.outcomeHash
  }

  lemma CapturedTextIs(k: CapturedKey)
    ensures Join(CapturedSegments(k)) == CapturedText(k)
  {
    var w, s, a, h := k.workflowId, k.stepId, k.pauseAuditEntryId, k.outcomeHash;
    var sep := [SEPARATOR];
    assert Join([h]) == h;
    assert Join([a, h]) == a + sep + h;
    assert Join([a, a, h]) == a + sep + (a + sep + h);
    assert Join([s, a, a, h]) == s + sep + (a + sep + (a + sep + h));
    assert Join([w, s, a, a, h]) == w + sep + (s + sep + (a + sep + (a + sep + h)));
    assert CapturedText(k) == w + sep + (s + sep + (a + sep + (a + sep + h)));
  }

  lemma CountOfText(k: CapturedKey)
    ensures SeparatorCount(CapturedText(k))
         == SeparatorCount(k.workflowId) + SeparatorCount(k.stepId) + 2 * SeparatorCount(k.pauseAuditEntryId)
            + SeparatorCount(k.outcomeHash) + 4
  {
    hide SeparatorCount;
    var w, s, a, h := k.workflowId, k.stepId, k.pauseAuditEntryId, k.outcomeHash;
    CountOfOne();
    CountOfConcat(w, [SEPARATOR]);
    CountOfConcat(w + [SEPARATOR], s);
    CountOfConcat(w + [SEPARATOR] + s, Twice(a));
    CountOfConcat(w + [SEPARATOR] + s + Twice(a), h);
    CountOfConcat([SEPARATOR], a);
    CountOfConcat([SEPARATOR] + a, [SEPARATOR]);
    CountOfConcat([SEPARATOR] + a + [SEPARATOR], a);
    CountOfConcat([SEPARATOR] + a + [SEPARATOR] + a, [SEPARATOR]);
  }

  lemma CountOfOne()
    ensures SeparatorCount([SEPARATOR]) == 1
  {
    assert [SEPARATOR][1..] == "";
  }

  /** The last separator, as `HeadsAgree` the first. */
  lemma TailsAgree(a: string, x: string, b: string, y: string)
    requires a + [SEPARATOR] + x == b + [SEPARATOR] + y && Free(SEPARATOR, x) && Free(SEPARATOR, y)
    ensures a == b && x == y
  {
    LastSeparator(a, x, b, y);
    LastSeparator(b, y, a, x);
    var s, t := a + [SEPARATOR] + x, b + [SEPARATOR] + y;
    assert a == s[..|a|] == t[..|b|] == b;
    assert x == s[|a| + 1..] == t[|b| + 1..] == y;
  }

  lemma LastSeparator(a: string, x: string, b: string, y: string)
    requires a + [SEPARATOR] + x == b + [SEPARATOR] + y && Free(SEPARATOR, x)
    ensures |b| <= |a|
  {
    var s, t := a + [SEPARATOR] + x, b + [SEPARATOR] + y;
    assert t[|b|] == SEPARATOR;
    assert forall i | |a| < i < |s| :: s[i] == x[i - |a| - 1];
  }

  lemma PrefixCount(s: string, n: nat)
    requires n <= |s|
    ensures SeparatorCount(s[..n]) <= SeparatorCount(s)
  {
    assert s == s[..n] + s[n..];
    CountOfConcat(s[..n], s[n..]);
  }

  /** The text of a captured key, part by part. */
  lemma CapturedTextRegrouped(x: CapturedKey)
    ensures var a := x.pauseAuditEntryId;
            CapturedText(x) == x.workflowId + [SEPARATOR]
                               + (x.stepId + [SEPARATOR] + (a + [SEPARATOR] + a + [SEPARATOR] + x.outcomeHash))
  {
    var a, sep := x.pauseAuditEntryId, [SEPARATOR];
    CapturedTextParts(x);
    assert Twice(a) == sep + (a + sep + a + sep);
    hide *;
    RegroupParts(x.workflowId + sep, x.stepId, sep, a + sep + a + sep, x.outcomeHash);
  }

  lemma RegroupParts(w: string, s: string, sep: string, t: string, h: string)
    ensures w + s + (sep + t) + h == w + (s + sep + (t + h))
  {
  }

  lemma HalvesAgree(a: string, b: string)
    requires a + [SEPARATOR] + a == b + [SEPARATOR] + b
    ensures a == b
  {
    var dx, dy := a + [SEPARATOR] + a, b + [SEPARATOR] + b;
    assert |dx| == |dy|;
    assert a == dx[..|a|] == dy[..|b|] == b;
  }

  lemma SameCountsSameKey(x: CapturedKey, y: CapturedKey)
    requires CapturedText(x) == CapturedText(y)
    requires Free(SEPARATOR, x.workflowId) && Free(SEPARATOR, x.stepId) && Free(SEPARATOR, x.outcomeHash)
    requires Free(SEPARATOR, y.workflowId) && Free(SEPARATOR, y.stepId) && Free(SEPARATOR, y.outcomeHash)
    ensures x == y
  {
    hide CapturedText;
    hide Free;
    var a, b := x.pauseAuditEntryId, y.pauseAuditEntryId;
    var dx, dy := a + [SEPARATOR] + a, b + [SEPARATOR] + b;
    var tx, ty := dx + [SEPARATOR] + x.outcomeHash, dy + [SEPARATOR] + y.outcomeHash;
    CapturedTextRegrouped(x);
    CapturedTextRegrouped(y);
    HeadsAgree(SEPARATOR, x.workflowId, x.stepId + [SEPARATOR] + tx, y.workflowId, y.stepId + [SEPARATOR] + ty);
    HeadsAgree(SEPARATOR, x.stepId, tx, y.stepId, ty);
    TailsAgree(dx, x.outcomeHash, dy, y.outcomeHash);
    HalvesAgree(a, b);
  }

  /** Another reading with a hex outcome hash has the same one, and its doubled audit id where the first
      reading's doubled audit id ends. */
  lemma OtherReadingEnds(x: CapturedKey, y: CapturedKey)
    requires CapturedText(x) == CapturedText(y)
    requires Free(SEPARATOR, x.workflowId) && Free(SEPARATOR, x.stepId)
    requires Free(SEPARATOR, x.outcomeHash) && Free(SEPARATOR, y.outcomeHash)
    ensures y.outcomeHash == x.outcomeHash && EndsWith(Twice(x.pauseAuditEntryId), Twice(y.pauseAuditEntryId))
  {
    hide *;
    var front, other := x.workflowId + [SEPARATOR] + x.stepId, y.workflowId + [SEPARATOR] + y.stepId;
    var a, b := Twice(x.pauseAuditEntryId), Twice(y.pauseAuditEntryId);
    CapturedTextParts(x);
    CapturedTextParts(y);
    SecondSeparator(CapturedText(x), front, other, x, y);
    EndsWithSeparator(x.pauseAuditEntryId);
    EndsWithSeparator(y.pauseAuditEntryId);
    LastPartsAgree(front, a, x.outcomeHash, other, b, y.outcomeHash);
    LongerEndsWith(front, a, other, b);
  }

  lemma EndsWithSeparator(id: string)
    ensures Twice(id) != "" && Twice(id)[|Twice(id)| - 1] == SEPARATOR
  {
  }

  /** Two parts that end with a separator, each followed by a text without one. */
  lemma LastPartsAgree(front: string, a: string, h: string, other: string, b: string, k: string)
    requires front + a + h == other + b + k && Free(SEPARATOR, h) && Free(SEPARATOR, k)
    requires a != "" && a[|a| - 1] == SEPARATOR && b != "" && b[|b| - 1] == SEPARATOR
    ensures h == k && front + a == other + b
  {
    var before, after := front + a[..|a| - 1], other + b[..|b| - 1];
    assert front + a == before + [SEPARATOR] && other + b == after + [SEPARATOR];
    TailsAgree(before, h, after, k);
  }

  lemma LongerEndsWith(front: string, a: string, other: string, b: string)
    requires front + a == other + b && |front| <= |other|
    ensures EndsWith(a, b)
  {
    var t := front + a;
    assert a == t[|front|..] && b == t[|other|..];
    assert a[|a| - |b|..] == t[|front|..][|other| - |front|..] == t[|other|..];
  }

  lemma SecondSeparator(t: string, front: string, other: string, x: CapturedKey, y: CapturedKey)
    requires t == CapturedText(x) == CapturedText(y)
    requires front == x.workflowId + [SEPARATOR] + x.stepId && other == y.workflowId + [SEPARATOR] + y.stepId
    requires Free(SEPARATOR, x.workflowId) && Free(SEPARATOR, x.stepId)
    ensures |front| <= |other|
  {
    hide SeparatorCount;
    CountOfOne();
    CountZero(x.workflowId);
    CountZero(x.stepId);
    CountOfConcat(x.workflowId, [SEPARATOR]);
    CountOfConcat(x.workflowId + [SEPARATOR], x.stepId);
    CountOfConcat(y.workflowId, [SEPARATOR]);
    CountOfConcat(y.workflowId + [SEPARATOR], y.stepId);
    CountOfConcat(other, [SEPARATOR]);
    if |other| < |front| {
      assert other + [SEPARATOR] == t[..|other| + 1] == front[..|other| + 1];
      PrefixCount(front, |other| + 1);
    }
  }

  /** The other reading a shorter repeat gives, with the outcome hash it had. */
  lemma RepeatGivesReading(x: CapturedKey, block: string) returns (y: CapturedKey)
    requires EndsWith(Twice(x.pauseAuditEntryId), Twice(block))
    ensures var a, b := Twice(x.pauseAuditEntryId), Twice(block);
            y == CapturedKey(x.workflowId, x.stepId + a[..|a| - |b|], block, x.outcomeHash)
    ensures CapturedText(y) == CapturedText(x)
  {
    var a, b := Twice(x.pauseAuditEntryId), Twice(block);
    y := CapturedKey(x.workflowId, x.stepId + a[..|a| - |b|], block, x.outcomeHash);
    assert a == a[..|a| - |b|] + b;
    hide *;
    CapturedTextParts(x);
    CapturedTextParts(y);
    EndRegroups(x.workflowId + [SEPARATOR], x.stepId, a[..|a| - |b|], b, x.outcomeHash);
  }

  lemma CapturedTextParts(k: CapturedKey)
    ensures CapturedText(k) == k.workflowId + [SEPARATOR] + k.stepId + Twice(k.pauseAuditEntryId) + k.outcomeHash
  {
  }

  lemma EndRegroups(f: string, s: string, u: string, b: string, h: string)
    ensures f + s + (u + b) + h == f + (s + u) + b + h
  {
  }

  /** Among tuples with a hex outcome hash, the text identifies its tuple exactly when neither identifier
      holds a separator and the doubled audit id does not also end in a shorter block written twice: an id
      "p<RS>q" is still decoded, an id "p<RS>p" is not. */
  lemma CapturedTextUniqueIff(x: CapturedKey)
    requires Free(SEPARATOR, x.outcomeHash)
    ensures (forall y: CapturedKey |
               Free(SEPARATOR, y.outcomeHash) && Join(CapturedSegments(y)) == Join(CapturedSegments(x)) :: y == x)
            <==> Free(SEPARATOR, x.workflowId) && Free(SEPARATOR, x.stepId)
                 && !EndsInShorterRepeat(x.pauseAuditEntryId)
    ensures Free(SEPARATOR, x.pauseAuditEntryId) ==> !EndsInShorterRepeat(x.pauseAuditEntryId)
  {
    CountZero(x.pauseAuditEntryId);
    hide SeparatorCount;
    hide Join;
    hide EndsWith;
    CapturedTextIs(x);
    if !Free(SEPARATOR, x.workflowId) || !Free(SEPARATOR, x.stepId) {
      var z := OtherCapturedReading(x);
    } else if EndsInShorterRepeat(x.pauseAuditEntryId) {
      var block :| ShorterEnding(x.pauseAuditEntryId, block);
      var y := RepeatGivesReading(x, block);
      CapturedTextIs(y);
      assert y != x;
    } else {
      forall y: CapturedKey | Free(SEPARATOR, y.outcomeHash) && Join(CapturedSegments(y)) == Join(CapturedSegments(x))
        ensures y == x
      {
        CapturedTextIs(y);
        OnlyCapturedReading(x, y);
      }
    }
  }

  lemma OtherCapturedReading(x: CapturedKey) returns (z: CapturedKey)
    requires !(Free(SEPARATOR, x.workflowId) && Free(SEPARATOR, x.stepId))
    ensures z != x && z.pauseAuditEntryId == x.pauseAuditEntryId && z.outcomeHash == x.outcomeHash
    ensures Join(CapturedSegments(z)) == Join(CapturedSegments(x))
  {
    hide Join;
    hide Free;
    var sx := CapturedSegments(x);
    var y := ShiftedIds(x.workflowId, x.stepId, sx[2..]);
    z := x.(workflowId := y.0, stepId := y.1);
    assert CapturedSegments(z) == [y.0, y.1] + sx[2..] && sx == [x.workflowId, x.stepId] + sx[2..];
  }

  lemma OnlyCapturedReading(x: CapturedKey, y: CapturedKey)
    requires CapturedText(y) == CapturedText(x) && !EndsInShorterRepeat(x.pauseAuditEntryId)
    requires Free(SEPARATOR, x.workflowId) && Free(SEPARATOR, x.stepId)
    requires Free(SEPARATOR, x.outcomeHash) && Free(SEPARATOR, y.outcomeHash)
    ensures y == x
  {
    hide SeparatorCount;
    hide Twice;
    hide CapturedText;
    hide EndsWith;
    CountOfText(x);
    CountOfText(y);
    CountZero(x.workflowId);
    CountZero(x.stepId);
    CountZero(x.outcomeHash);
    CountZero(y.workflowId);
    CountZero(y.stepId);
    CountZero(y.outcomeHash);
    OtherReadingEnds(x, y);
    assert !ShorterEnding(x.pauseAuditEntryId, y.pauseAuditEntryId);
    SameCountsSameKey(x, y);
  }

  /** Of two separator-free parts joined to one audit id: ambiguous exactly when they are equal, and then
      this is the other tuple. */
  lemma DoubledAuditIdIsAmbiguous(w: string, s: string, p: string, q: string, h: string)
    requires Free(SEPARATOR, p) && Free(SEPARATOR, q)
    ensures EndsInShorterRepeat(p + [SEPARATOR] + q) <==> p == q
    ensures p == q ==>
              Join(CapturedSegments(CapturedKey(w, s + [SEPARATOR] + p + [SEPARATOR] + p, p, h)))
              == Join(CapturedSegments(CapturedKey(w, s, p + [SEPARATOR] + q, h)))
  {
    hide *;
    var id := p + [SEPARATOR] + q;
    CountOfPair(p, q);
    if p == q {
      DoubledEndsDoubled(p);
      CountZero(p);
      ShorterEndingIs(id, p);
      var x := CapturedKey(w, s, id, h);
      var y := RepeatGivesReading(x, p);
      DoubledEndsDoubled(p);
      SplitStep(s, p);
      CapturedTextIs(x);
      CapturedTextIs(y);
    } else {
      forall block: string ensures !ShorterEnding(id, block) {
        CountZero(block);
        ShorterEndingIs(id, block);
        if ShorterEnding(id, block) { EndsInEqualParts(p, q, block); }
      }
      NoShorterEnding(id);
    }
  }

  lemma ShorterEndingIs(auditId: string, block: string)
    ensures ShorterEnding(auditId, block)
            <==> SeparatorCount(block) < SeparatorCount(auditId) && EndsWith(Twice(auditId), Twice(block))
    ensures ShorterEnding(auditId, block) ==> EndsInShorterRepeat(auditId)
  {
    hide SeparatorCount;
    hide EndsWith;
  }

  lemma NoShorterEnding(auditId: string)
    requires forall block: string :: !ShorterEnding(auditId, block)
    ensures !EndsInShorterRepeat(auditId)
  {
    hide ShorterEnding;
  }

  lemma CountOfPair(p: string, q: string)
    requires Free(SEPARATOR, p) && Free(SEPARATOR, q)
    ensures SeparatorCount(p + [SEPARATOR] + q) == 1
  {
    hide SeparatorCount;
    CountOfOne();
    CountZero(p);
    CountZero(q);
    CountOfConcat(p, [SEPARATOR]);
    CountOfConcat(p + [SEPARATOR], q);
  }

  lemma DoubledEndsDoubled(p: string)
    ensures var a := Twice(p + [SEPARATOR] + p);
            EndsWith(a, Twice(p)) && a[..|a| - |Twice(p)|] == [SEPARATOR] + p + [SEPARATOR] + p
  {
    var sep := [SEPARATOR];
    assert Twice(p + sep + p) == (sep + p + sep + p) + Twice(p);
  }

  lemma SplitStep(s: string, p: string)
    ensures s + ([SEPARATOR] + p + [SEPARATOR] + p) == s + [SEPARATOR] + p + [SEPARATOR] + p
  {
  }

  /** A separator-free block at the end of a doubled pair, twice, is both of its parts. */
  lemma EndsInEqualParts(p: string, q: string, block: string)
    requires Free(SEPARATOR, p) && Free(SEPARATOR, q) && Free(SEPARATOR, block)
    requires EndsWith(Twice(p + [SEPARATOR] + q), Twice(block))
    ensures p == q
  {
    var sep := [SEPARATOR];
    var t, e := Twice(p + sep + q), Twice(block);
    var u := t[..|t| - |e|];
    var v := sep + p + sep + q;
    assert t == v + sep + p + sep + (q + sep);
    assert t == u + sep + block + sep + (block + sep);
    assert t[..|t| - 1] == v + sep + p + sep + q == u + sep + block + sep + block;
    TailsAgree(v + sep + p, q, u + sep + block, block);
    TailsAgree(v, p, u, block);
  }

  /** A repeat that does not stand at the end does no harm. */
  lemma InnerRepeatIsDecoded(p: string, q: string)
    requires Free(SEPARATOR, p) && Free(SEPARATOR, q) && p != q
    ensures !EndsInShorterRepeat(p + [SEPARATOR] + p + [SEPARATOR] + q)
  {
    hide *;
    var id := p + [SEPARATOR] + p + [SEPARATOR] + q;
    CountOfTriple(p, q);
    forall block: string ensures !ShorterEnding(id, block) {
      ShorterEndingIs(id, block);
      if ShorterEnding(id, block) {
        CountZero(block);
        if Free(SEPARATOR, block) {
          TripleEndsInOne(p, q, block);
        } else {
          var a, b := SplitAtSeparator(SEPARATOR, block);
          CountOfConcat(a + [SEPARATOR], b);
          CountOfConcat(a, [SEPARATOR]);
          CountOfOne();
          CountZero(a);
          CountZero(b);
          TripleEndsInTwo(p, q, a, b);
        }
      }
    }
    NoShorterEnding(id);
  }

  lemma CountOfTriple(p: string, q: string)
    requires Free(SEPARATOR, p) && Free(SEPARATOR, q)
    ensures SeparatorCount(p + [SEPARATOR] + p + [SEPARATOR] + q) == 2
  {
    hide SeparatorCount;
    CountOfOne();
    CountZero(q);
    CountOfPair(p, p);
    CountOfConcat(p + [SEPARATOR] + p, [SEPARATOR]);
    CountOfConcat(p + [SEPARATOR] + p + [SEPARATOR], q);
  }

  lemma TripleEndsInOne(p: string, q: string, block: string)
    requires Free(SEPARATOR, p) && Free(SEPARATOR, q) && Free(SEPARATOR, block)
    requires EndsWith(Twice(p + [SEPARATOR] + p + [SEPARATOR] + q), Twice(block))
    ensures p == q
  {
    var sep := [SEPARATOR];
    var id := p + sep + p + sep + q;
    var t, e := Twice(id), Twice(block);
    var u := t[..|t| - |e|];
    var v := sep + id + sep + p;
    assert t == v + sep + p + sep + (q + sep);
    assert t == u + sep + block + sep + (block + sep);
    assert t[..|t| - 1] == v + sep + p + sep + q == u + sep + block + sep + block;
    TailsAgree(v + sep + p, q, u + sep + block, block);
    TailsAgree(v, p, u, block);
  }

  lemma TwiceOfPair(u: string, a: string, b: string)
    ensures var sep := [SEPARATOR];
            u + Twice(a + sep + b) == (u + sep + a + sep + b + sep + a + sep + b) + sep
  {
    var sep := [SEPARATOR];
    var half := a + sep + b;
    ConcatAssociates(u + sep, a + sep, b);
    ConcatAssociates(u + sep, a, sep);
    assert u + sep + half == u + sep + a + sep + b;
    ConcatAssociates(u + sep + half + sep, a + sep, b);
    ConcatAssociates(u + sep + half + sep, a, sep);
    assert u + (sep + half + sep + half + sep) == u + sep + half + sep + half + sep;
  }

  lemma DropLast(x: string, y: string)
    requires x + [SEPARATOR] == y + [SEPARATOR]
    ensures x == y
  {
    assert (x + [SEPARATOR])[..|x|] == x && (y + [SEPARATOR])[..|y|] == y;
  }

  lemma TripleRegroups(p: string, q: string)
    ensures var sep := [SEPARATOR];
            Twice(p + sep + p + sep + q) == (sep + (p + sep + p + sep + q) + sep + p + sep + p + sep + q) + sep
  {
    var sep := [SEPARATOR];
    var v := sep + (p + sep + p + sep + q) + sep;
    ConcatAssociates(v, p + sep + p + sep, q);
    ConcatAssociates(v, p + sep + p, sep);
    ConcatAssociates(v, p + sep, p);
    ConcatAssociates(v, p, sep);
  }

  lemma EndSplits(t: string, end: string)
    requires EndsWith(t, end)
    ensures t == t[..|t| - |end|] + end
  {
  }

  lemma TripleEndsInTwo(p: string, q: string, a: string, b: string)
    requires Free(SEPARATOR, p) && Free(SEPARATOR, q) && Free(SEPARATOR, a) && Free(SEPARATOR, b)
    requires EndsWith(Twice(p + [SEPARATOR] + p + [SEPARATOR] + q), Twice(a + [SEPARATOR] + b))
    ensures p == q
  {
    var sep := [SEPARATOR];
    hide *;
    var id, block := p + sep + p + sep + q, a + sep + b;
    var t, e := Twice(id), Twice(block);
    EndSplits(t, e);
    var u := t[..|t| - |e|];
    var v, w := sep + id, u + sep + a;
    TripleRegroups(p, q);
    TwiceOfPair(u, a, b);
    DropLast(v + sep + p + sep + p + sep + q, w + sep + b + sep + a + sep + b);
    TailsAgree(v + sep + p + sep + p, q, w + sep + b + sep + a, b);
    TailsAgree(v + sep + p, p, w + sep + b, a);
    TailsAgree(v, p, w, b);
  }

  lemma CapturedKeysBind(sha: string -> string, x: CapturedKey, y: CapturedKey)
    requires Free(SEPARATOR, x.workflowId) && Free(SEPARATOR, x.stepId) && Free(SEPARATOR, x.outcomeHash)
    requires Free(SEPARATOR, y.outcomeHash) && !EndsInShorterRepeat(x.pauseAuditEntryId)
    requires PauseCapturedIdempotencyKey(sha, x) == PauseCapturedIdempotencyKey(sha, y)
    ensures x == y || Collide(sha, Join(CapturedSegments(x)), Join(CapturedSegments(y)))
  {
    hide Join;
    hide EndsInShorterRepeat;
    CapturedTextUniqueIff(x);
  }

  // ---- engine-layer resume entries

  lemma OnlyAttemptedReading(x: AttemptedKey, y: AttemptedKey)
    requires Free(SEPARATOR, x.workflowId) && Free(SEPARATOR, x.stepId) && Free(SEPARATOR, x.resumeEventId)
    requires Free(SEPARATOR, x.outcomeHash) && Join(AttemptedSegments(y)) == Join(AttemptedSegments(x))
    ensures y == x
  {
    hide Join;
    hide Free;
    hide Decimals.IntText;
    IntTextSeparatorFree(x.resumeAttemptCount);
    var sx, sy := AttemptedSegments(x), AttemptedSegments(y);
    JoinDecodesUniquely(sx, sy);
    assert sx[0] == sy[0] && sx[1] == sy[1] && sx[2] == sy[2] && sx[3] == sy[3] && sx[4] == sy[4];
    Decimals.IntTextInjective(x.resumeAttemptCount, y.resumeAttemptCount);
  }

  lemma OtherAttemptedReading(x: AttemptedKey) returns (z: AttemptedKey)
    requires !(Free(SEPARATOR, x.workflowId) && Free(SEPARATOR, x.stepId) && Free(SEPARATOR, x.resumeEventId))
    ensures z != x && z.outcomeHash == x.outcomeHash && Join(AttemptedSegments(z)) == Join(AttemptedSegments(x))
  {
    hide Join;
    hide Decimals.IntText;
    var sx := AttemptedSegments(x);
    if !Free(SEPARATOR, x.workflowId) || !Free(SEPARATOR, x.stepId) {
      var y := ShiftedIds(x.workflowId, x.stepId, sx[2..]);
      z := x.(workflowId := y.0, stepId := y.1);
      assert AttemptedSegments(z) == [y.0, y.1] + sx[2..] && sx == [x.workflowId, x.stepId] + sx[2..];
    } else {
      var y := ShiftedIds(x.stepId, x.resumeEventId, sx[3..]);
      z := x.(stepId := y.0, resumeEventId := y.1);
      JoinCons(x.workflowId, [y.0, y.1] + sx[3..], [x.stepId, x.resumeEventId] + sx[3..]);
      assert AttemptedSegments(z) == [x.workflowId] + ([y.0, y.1] + sx[3..]);
      assert sx == [x.workflowId] + ([x.stepId, x.resumeEventId] + sx[3..]);
    }
  }

  lemma AttemptedTextUniqueIff(x: AttemptedKey)
    requires Free(SEPARATOR, x.outcomeHash)
    ensures (forall y: AttemptedKey |
               Free(SEPARATOR, y.outcomeHash) && Join(AttemptedSegments(y)) == Join(AttemptedSegments(x)) :: y == x)
            <==> Free(SEPARATOR, x.workflowId) && Free(SEPARATOR, x.stepId) && Free(SEPARATOR, x.resumeEventId)
  {
    hide *;
    if Free(SEPARATOR, x.workflowId) && Free(SEPARATOR, x.stepId) && Free(SEPARATOR, x.resumeEventId) {
      forall y: AttemptedKey | Join(AttemptedSegments(y)) == Join(AttemptedSegments(x)) ensures y == x {
        OnlyAttemptedReading(x, y);
      }
    } else {
      var z := OtherAttemptedReading(x);
    }
  }

  lemma AttemptedKeysBind(sha: string -> string, x: AttemptedKey, y: AttemptedKey)
    requires Free(SEPARATOR, x.workflowId) && Free(SEPARATOR, x.stepId) && Free(SEPARATOR, x.resumeEventId)
    requires Free(SEPARATOR, x.outcomeHash)
    requires ResumeAttemptedIdempotencyKey(sha, x) == ResumeAttemptedIdempotencyKey(sha, y)
    ensures x == y || Collide(sha, Join(AttemptedSegments(x)), Join(AttemptedSegments(y)))
  {
    hide Join;
    if Join(AttemptedSegments(x)) == Join(AttemptedSegments(y)) { OnlyAttemptedReading(x, y); }
  }

  // ---- tool-call rewriting entries: four free texts before the hash

  /** If a segment but the last holds a separator, another list of as many segments, with the same last
      one, joins to the same text. */
  lemma {:induction false} OtherReading(xs: seq<string>) returns (ys: seq<string>)
    requires |xs| >= 3 && !AllFree(SEPARATOR, xs) && Free(SEPARATOR, xs[|xs| - 1])
    ensures |ys| == |xs| && ys != xs && Join(ys) == Join(xs) && ys[|ys| - 1] == xs[|xs| - 1]
  {
    if !Free(SEPARATOR, xs[0]) || !Free(SEPARATOR, xs[1]) {
      var r := ShiftedIds(xs[0], xs[1], xs[2..]);
      ys := [r.0, r.1] + xs[2..];
      assert xs == [xs[0], xs[1]] + xs[2..];
      assert ys[0] == r.0 && ys[1] == r.1;
    } else {
      assert xs == [xs[0]] + xs[1..];
      var i :| 0 <= i < |xs| && !Free(SEPARATOR, xs[i]);
      assert xs[i] == xs[1..][i - 1];
      var tail := OtherReading(xs[1..]);
      ys := [xs[0]] + tail;
      JoinCons(xs[0], tail, xs[1..]);
      assert ys[1..] == tail;
    }
  }

  lemma OnlyRewritingReading(x: RewritingKey, y: RewritingKey)
    requires AllFree(SEPARATOR, RewritingSegments(x)) && Join(RewritingSegments(y)) == Join(RewritingSegments(x))
    ensures y == x
  {
    hide Join;
    var sx, sy := RewritingSegments(x), RewritingSegments(y);
    JoinDecodesUniquely(sx, sy);
    assert sx[0] == sy[0] && sx[1] == sy[1] && sx[2] == sy[2] && sx[3] == sy[3] && sx[4] == sy[4];
  }

  lemma RewritingTextUniqueIff(x: RewritingKey)
    requires Free(SEPARATOR, x.outcomeHash)
    ensures (forall y: RewritingKey |
               Free(SEPARATOR, y.outcomeHash) && Join(RewritingSegments(y)) == Join(RewritingSegments(x)) :: y == x)
            <==> AllFree(SEPARATOR, RewritingSegments(x))
  {
    hide Join;
    var sx := RewritingSegments(x);
    if AllFree(SEPARATOR, sx) {
      forall y: RewritingKey | Join(RewritingSegments(y)) == Join(sx) ensures y == x {
        OnlyRewritingReading(x, y);
      }
    } else {
      var ys := OtherReading(sx);
      var y := RewritingKey(ys[0], ys[1], ys[2], ys[3], ys[4]);
      assert RewritingSegments(y) == ys;
      assert y.outcomeHash == x.outcomeHash && y != x;
    }
  }

  lemma RewritingKeysBind(sha: string -> string, x: RewritingKey, y: RewritingKey)
    requires AllFree(SEPARATOR, RewritingSegments(x))
    requires HitlRewritingIdempotencyKey(sha, x) == HitlRewritingIdempotencyKey(sha, y)
    ensures x == y || Collide(sha, Join(RewritingSegments(x)), Join(RewritingSegments(y)))
  {
    hide Join;
    if Join(RewritingSegments(x)) == Join(RewritingSegments(y)) { OnlyRewritingReading(x, y); }
  }
}
