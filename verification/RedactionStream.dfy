/** Redaction as a pipeline that reads its text once, character by character, in finitely many states.  So a
    finite set of short texts decides whether a marker set is ever left behind. */
module RedactionStream {
  import opened MarkerReplacement
  import opened Sequences
  import opened Substrings

  // ---------------------------------------------------------------- one marker

  /** What a replacing stage has read and not yet written: the start of an occurrence. */
  predicate Held(b: string, m: string) {
    if m == "" then b == "" else |b| < |m| && b <= m
  }

  /** What of `u` cannot start an occurrence is written, the rest held. */
  function Settle(u: string, m: string): (r: (string, string))
    requires m != ""
    ensures Held(r.1, m) && r.0 + r.1 == u
  {
    if |u| < |m| && u <= m then ("", u)
    else
      var (written, held) := Settle(u[1..], m);
      ([u[0]] + written, held)
  }

  function Read(b: string, c: char, m: string): (r: (string, string))
    requires m != "" && Held(b, m)
    ensures Held(r.1, m)
  {
    if b + [c] == m then (REDACTION_SENTINEL, "") else Settle(b + [c], m)
  }

  function Stream(b: string, t: string, m: string): (r: (string, string))
    requires Held(b, m)
    ensures Held(r.1, m)
    decreases |t|
  {
    if m == "" then (t, "")
    else if t == "" then ("", b)
    else
      var (o, h) := Read(b, t[0], m);
      var (rest, held) := Stream(h, t[1..], m);
      (o + rest, held)
  }

  /** Whether an occurrence is completed on the way. */
  predicate Fires(b: string, t: string, m: string)
    requires m != "" && Held(b, m)
    decreases |t|
  {
    t != "" && (b + [t[0]] == m || Fires(Read(b, t[0], m).1, t[1..], m))
  }

  lemma StreamCons(b: string, c: char, t: string, m: string)
    requires m != "" && Held(b, m)
    ensures var (o, h) := Read(b, c, m);
            && Stream(b, [c] + t, m) == (o + Stream(h, t, m).0, Stream(h, t, m).1)
            && (Fires(b, [c] + t, m) <==> b + [c] == m || Fires(h, t, m))
  {
    hide Read;
    assert ([c] + t)[1..] == t;
  }

  lemma {:induction false} StreamConcat(b: string, t: string, u: string, m: string)
    requires Held(b, m)
    ensures var (o, h) := Stream(b, t, m);
            Stream(b, t + u, m) == (o + Stream(h, u, m).0, Stream(h, u, m).1)
    ensures m != "" ==> (Fires(b, t + u, m) <==> Fires(b, t, m) || Fires(Stream(b, t, m).1, u, m))
    decreases |t|
  {
    if m == "" {
    } else if t == "" {
      assert "" + u == u && "" + Stream(b, u, m).0 == Stream(b, u, m).0;
    } else {
      hide Read;
      hide Held;
      var c, more := t[0], t[1..];
      assert t == [c] + more && t + u == [c] + (more + u);
      var (o, h) := Read(b, c, m);
      hide Stream;
      hide Fires;
      StreamCons(b, c, more, m);
      StreamCons(b, c, more + u, m);
      StreamConcat(h, more, u, m);
      ConcatAssociates(o, Stream(h, more, m).0, Stream(Stream(h, more, m).1, u, m).0);
    }
  }

  lemma NoStart(u: string, t: string, m: string)
    requires m != "" && u != "" && |u| <= |m| && u != m && !(|u| < |m| && u <= m)
    ensures !(m <= u + t)
  {
    assert (u + t)[..|u|] == u;
  }

  lemma ReplaceDrops(c: char, t: string, m: string)
    requires m != "" && !(m <= [c] + t)
    ensures Replace([c] + t, m) == [c] + Replace(t, m)
    ensures Contains([c] + t, m) <==> Contains(t, m)
  {
    var s := [c] + t;
    assert s[1..] == t;
    if |s| < |m| {
      ReplaceOfShort(s, m);
      ReplaceOfShort(t, m);
    } else {
      UnfoldReplace(s, m);
    }
    ContainsCons(c, t, m);
  }

  /** Writing what cannot start an occurrence changes neither the replacement nor whether there is one. */
  lemma {:induction false} SettleKeeps(u: string, t: string, m: string)
    requires m != "" && |u| <= |m| && u != m
    ensures Replace(u + t, m) == Settle(u, m).0 + Replace(Settle(u, m).1 + t, m)
    ensures Contains(u + t, m) <==> Contains(Settle(u, m).1 + t, m)
    decreases |u|
  {
    hide Replace;
    hide Contains;
    if |u| < |m| && u <= m {
      assert "" + Replace(u + t, m) == Replace(u + t, m);
    } else {
      var c, more := u[0], u[1..];
      assert u + t == [c] + (more + t);
      NoStart(u, t, m);
      ReplaceDrops(c, more + t, m);
      SettleKeeps(more, t, m);
      var (written, held) := Settle(more, m);
      hide Settle;
      assert [c] + (written + Replace(held + t, m)) == [c] + written + Replace(held + t, m);
    }
  }

  lemma ReadKeeps(b: string, c: char, t: string, m: string)
    requires m != "" && Held(b, m)
    ensures var (o, h) := Read(b, c, m);
            && Replace(b + ([c] + t), m) == o + Replace(h + t, m)
            && (Contains(b + ([c] + t), m) <==> b + [c] == m || Contains(h + t, m))
  {
    hide Replace;
    hide Contains;
    var u := b + [c];
    assert b + ([c] + t) == u + t;
    if u == m {
      UnfoldReplace(u + t, m);
      assert (u + t)[|m|..] == t && "" + t == t;
      OccurrencePrefix(u + t, m);
      ContainsIn(u + t, 0, m);
    } else {
      SettleKeeps(u, t, m);
    }
  }

  /** The stage writes the replaced text, but for what it still holds. */
  lemma {:induction false} StreamReplaces(b: string, t: string, m: string)
    requires m != "" && Held(b, m)
    ensures Replace(b + t, m) == Stream(b, t, m).0 + Stream(b, t, m).1
    ensures Contains(b + t, m) <==> Fires(b, t, m)
    decreases |t|
  {
    hide Replace;
    hide Contains;
    if t == "" {
      assert b + t == b && "" + b == b;
      ReplaceOfShort(b, m);
      if Contains(b, m) { OccursWithin(b, m); }
    } else {
      var c, more := t[0], t[1..];
      assert t == [c] + more;
      var (o, h) := Read(b, c, m);
      StreamCons(b, c, more, m);
      ReadKeeps(b, c, more, m);
      StreamReplaces(h, more, m);
      ConcatAssociates(o, Stream(h, more, m).0, Stream(h, more, m).1);
    }
  }

  // ---------------------------------------------------------------- the pipeline

  predicate AllHeld(hs: seq<string>, order: seq<string>) {
    |hs| == |order| && forall i | 0 <= i < |hs| :: Held(hs[i], order[i])
  }

  /** What the stages write for `t`, and what they then hold. */
  function Feed(hs: seq<string>, t: string, order: seq<string>): (r: (string, seq<string>))
    requires AllHeld(hs, order)
    ensures AllHeld(r.1, order)
    decreases |order|
  {
    if order == [] then (t, [])
    else
      var (o, h) := Stream(hs[0], t, order[0]);
      var (out, more) := Feed(hs[1..], o, order[1..]);
      (out, [h] + more)
  }

  /** What the stages write for the last text: each passes on what it held. */
  function Finish(hs: seq<string>, t: string, order: seq<string>): string
    requires AllHeld(hs, order)
    decreases |order|
  {
    if order == [] then t
    else
      var (o, h) := Stream(hs[0], t, order[0]);
      Finish(hs[1..], o + h, order[1..])
  }

  lemma {:induction false} FeedThenFinish(hs: seq<string>, t: string, u: string, order: seq<string>)
    requires AllHeld(hs, order)
    ensures var (out, more) := Feed(hs, t, order);
            Finish(hs, t + u, order) == out + Finish(more, u, order)
    decreases |order|
  {
    if order != [] {
      hide Stream;
      hide Held;
      var (o1, h1) := Stream(hs[0], t, order[0]);
      var (o2, h2) := Stream(h1, u, order[0]);
      StreamConcat(hs[0], t, u, order[0]);
      ConcatAssociates(o1, o2, h2);
      var (out, more) := Feed(hs[1..], o1, order[1..]);
      FeedThenFinish(hs[1..], o1, o2 + h2, order[1..]);
      assert ([h1] + more)[0] == h1 && ([h1] + more)[1..] == more;
    }
  }

  function Nothing(order: seq<string>): (hs: seq<string>)
    ensures AllHeld(hs, order)
  {
    seq(|order|, i => "")
  }

  /** From the start the pipeline is the redaction. */
  lemma {:induction false} FinishRedacts(t: string, order: seq<string>)
    ensures Finish(Nothing(order), t, order) == RedactInOrder(t, order)
    decreases |order|
  {
    if order != [] {
      hide Stream;
      hide Replace;
      assert Nothing(order)[0] == "" && Nothing(order)[1..] == Nothing(order[1..]);
      var (o, h) := Stream("", t, order[0]);
      StageReplaces(t, order[0]);
      FinishRedacts(o + h, order[1..]);
    }
  }

  lemma StageReplaces(t: string, m: string)
    ensures var (o, h) := Stream("", t, m);
            o + h == if m == "" then t else Replace(t, m)
  {
    if m == "" {
      assert t + "" == t;
    } else {
      StreamReplaces("", t, m);
      assert "" + t == t;
    }
  }

  // ---------------------------------------------------------------- finitely many states

  /** Where the pipeline stands, with a last stage that only watches for `n`. */
  datatype State = State(held: seq<string>, watch: string, seen: bool)

  function After(t: string, order: seq<string>, n: string): (s: State)
    requires n != ""
    ensures AllHeld(s.held, order) && Held(s.watch, n)
  {
    var (out, held) := Feed(Nothing(order), t, order);
    State(held, Stream("", out, n).1, Fires("", out, n))
  }

  /** Whether `n` is left depends on the state and on the text to come. */
  lemma LeftFromState(t: string, u: string, order: seq<string>, n: string)
    requires n != ""
    ensures var s := After(t, order, n);
            Contains(RedactInOrder(t + u, order), n) <==> s.seen || Fires(s.watch, Finish(s.held, u, order), n)
  {
    var (out, held) := Feed(Nothing(order), t, order);
    var tail := Finish(held, u, order);
    hide *;
    FinishRedacts(t + u, order);
    FeedThenFinish(Nothing(order), t, u, order);
    StartHeld(n);
    StreamReplaces("", out + tail, n);
    StreamConcat("", out, tail, n);
    NoneInFront(out + tail);
    AfterIs(t, order, n);
  }

  lemma StartHeld(n: string)
    requires n != ""
    ensures Held("", n)
  {
  }

  lemma AfterIs(t: string, order: seq<string>, n: string)
    requires n != ""
    ensures var (out, held) := Feed(Nothing(order), t, order);
            After(t, order, n) == State(held, Stream("", out, n).1, Fires("", out, n))
  {
  }

  /** How many texts the stage of `m` can hold: the starts of `m`. */
  function Width(m: string): (w: nat)
    ensures w >= 1
  {
    if m == "" then 1 else |m|
  }

  lemma ProductPositive(a: nat, b: nat)
    requires a >= 1 && b >= 1
    ensures a * b >= 1
  {
  }

  /** In how many ways the stages can hold something. */
  function Holdings(order: seq<string>): (n: nat)
    ensures n >= 1
  {
    if order == [] then 1
    else
      ProductPositive(Width(order[0]), Holdings(order[1..]));
      Width(order[0]) * Holdings(order[1..])
  }

  lemma DigitFits(d: nat, w: nat, rest: nat, n: nat)
    requires d < w && rest < n
    ensures d + w * rest < w * n
  {
    assert w * rest + w <= w * n by { assert w * (rest + 1) == w * rest + w && rest + 1 <= n; }
  }

  lemma StepUp(w: nat, x: nat, y: nat)
    requires x < y
    ensures w * x + w <= w * y
  {
    assert w * (x + 1) == w * x + w;
    assert w * (x + 1) <= w * y;
  }

  lemma SameDigits(d: nat, e: nat, w: nat, x: nat, y: nat)
    requires d < w && e < w && d + w * x == e + w * y
    ensures d == e && x == y
  {
    if x < y {
      StepUp(w, x, y);
    } else if y < x {
      StepUp(w, y, x);
    }
  }

  /** The held lengths as the digits of one number. */
  function Code(hs: seq<string>, order: seq<string>): (n: nat)
    requires AllHeld(hs, order)
    ensures n < Holdings(order)
    decreases |order|
  {
    if order == [] then 0
    else
      DigitFits(|hs[0]|, Width(order[0]), Code(hs[1..], order[1..]), Holdings(order[1..]));
      |hs[0]| + Width(order[0]) * Code(hs[1..], order[1..])
  }

  lemma SameHeld(a: string, b: string, m: string)
    requires Held(a, m) && Held(b, m) && |a| == |b|
    ensures a == b
  {
  }

  lemma HeldFits(b: string, m: string)
    requires Held(b, m)
    ensures |b| < Width(m)
  {
  }

  lemma {:induction false} CodeInjective(hs: seq<string>, gs: seq<string>, order: seq<string>)
    requires AllHeld(hs, order) && AllHeld(gs, order) && Code(hs, order) == Code(gs, order)
    ensures hs == gs
    decreases |order|
  {
    if order != [] {
      hide Held;
      hide Width;
      HeldFits(hs[0], order[0]);
      HeldFits(gs[0], order[0]);
      SameDigits(|hs[0]|, |gs[0]|, Width(order[0]), Code(hs[1..], order[1..]), Code(gs[1..], order[1..]));
      SameHeld(hs[0], gs[0], order[0]);
      CodeInjective(hs[1..], gs[1..], order[1..]);
      assert hs == [hs[0]] + hs[1..] && gs == [gs[0]] + gs[1..];
    }
  }

  /** The states of the pipeline that watches for `n`. */
  function StateCount(order: seq<string>, n: string): nat {
    2 * (Width(n) * Holdings(order))
  }

  function StateCode(s: State, order: seq<string>, n: string): (code: nat)
    requires n != "" && AllHeld(s.held, order) && Held(s.watch, n)
    ensures code < StateCount(order, n)
  {
    DigitFits(|s.watch|, Width(n), Code(s.held, order), Holdings(order));
    (if s.seen then 1 else 0) + 2 * (|s.watch| + Width(n) * Code(s.held, order))
  }

  lemma StateCodeInjective(s: State, r: State, order: seq<string>, n: string)
    requires n != "" && AllHeld(s.held, order) && Held(s.watch, n) && AllHeld(r.held, order) && Held(r.watch, n)
    requires StateCode(s, order, n) == StateCode(r, order, n)
    ensures s == r
  {
    hide Held;
    hide AllHeld;
    hide Code;
    hide Width;
    HeldFits(s.watch, n);
    HeldFits(r.watch, n);
    SameDigits(|s.watch|, |r.watch|, Width(n), Code(s.held, order), Code(r.held, order));
    SameHeld(s.watch, r.watch, n);
    CodeInjective(s.held, r.held, order);
  }

  // ---------------------------------------------------------------- short texts suffice

  lemma {:induction false} Pigeonhole(xs: seq<nat>, n: nat)
    requires Distinct(xs) && forall i | 0 <= i < |xs| :: xs[i] < n
    ensures |xs| <= n
    decreases n
  {
    if xs == [] {
    } else if k :| 0 <= k < |xs| && xs[k] == n - 1 {
      var rest := Without(xs, k);
      forall i | 0 <= i < |rest| ensures rest[i] < n - 1 && rest[i] == xs[if i < k then i else i + 1] {
      }
      Pigeonhole(rest, n - 1);
    } else {
      assert xs[0] < n;
      Pigeonhole(xs, n - 1);
    }
  }

  /** Two ways of starting that end in the same state. */
  lemma Recurs(t: string, order: seq<string>, n: string) returns (i: nat, j: nat)
    requires n != "" && |t| >= StateCount(order, n)
    ensures i < j <= |t| && After(t[..i], order, n) == After(t[..j], order, n)
  {
    hide After;
    hide StateCode;
    hide StateCount;
    var codes := seq(|t| + 1, k requires 0 <= k <= |t| => StateCode(After(t[..k], order, n), order, n));
    if Distinct(codes) { Pigeonhole(codes, StateCount(order, n)); }
    i, j :| 0 <= i < j < |codes| && codes[i] == codes[j];
    StateCodeInjective(After(t[..i], order, n), After(t[..j], order, n), order, n);
  }

  predicate Within(u: string, t: string) {
    forall i | 0 <= i < |u| :: u[i] in t
  }

  lemma WithinParts(t: string, i: nat, j: nat)
    requires i <= j <= |t|
    ensures Within(t[..i] + t[j..], t)
  {
  }

  lemma WithinTransitive(u: string, t: string, s: string)
    requires Within(u, t) && Within(t, s)
    ensures Within(u, s)
  {
  }

  /** A text that leaves `n` can be cut down to one with fewer characters than there are states. */
  lemma ShortSurvivor(t: string, order: seq<string>, n: string) returns (u: string)
    requires n != "" && Contains(RedactInOrder(t, order), n)
    ensures |u| < StateCount(order, n) && Within(u, t) && Contains(RedactInOrder(u, order), n)
    decreases |t|
  {
    hide *;
    if |t| < StateCount(order, n) {
      u := t;
      WithinItself(t);
    } else {
      var i, j := Recurs(t, order, n);
      var cut := t[..i] + t[j..];
      assert t == t[..j] + t[j..];
      LeftFromState(t[..i], t[j..], order, n);
      LeftFromState(t[..j], t[j..], order, n);
      u := ShortSurvivor(cut, order, n);
      WithinParts(t, i, j);
      WithinTransitive(u, cut, t);
    }
  }

  lemma WithinItself(t: string)
    ensures Within(t, t)
  {
  }

  // ---------------------------------------------------------------- the markers' own characters suffice

  predicate Foreign(c: char, order: seq<string>) {
    forall i | 0 <= i < |order| :: c !in order[i]
  }

  lemma BeforeWall(a: string, c: char, b: string, m: string)
    requires c !in m && m <= a + ([c] + b)
    ensures m <= a
  {
    var t := a + ([c] + b);
    assert t[|a|] == c && t[..|a|] == a;
    assert forall k | 0 <= k < |m| :: t[k] in m;
  }

  /** A character outside the marker is a wall: nothing is replaced across it. */
  lemma {:induction false} ReplaceAtWall(a: string, c: char, b: string, m: string)
    requires m != "" && c !in m
    ensures Replace(a + ([c] + b), m) == Replace(a, m) + ([c] + Replace(b, m))
    decreases |a|
  {
    hide Replace;
    hide Contains;
    var t := a + ([c] + b);
    assert t[|a|] == c;
    if m <= t {
      BeforeWall(a, c, b, m);
      UnfoldReplace(t, m);
      UnfoldReplace(a, m);
      assert t[|m|..] == a[|m|..] + ([c] + b);
      ReplaceAtWall(a[|m|..], c, b, m);
      ConcatAssociates(REDACTION_SENTINEL, Replace(a[|m|..], m), [c] + Replace(b, m));
    } else if a == "" {
      assert t == [c] + b;
      ReplaceDrops(c, b, m);
      ReplaceOfShort(a, m);
      assert "" + ([c] + Replace(b, m)) == [c] + Replace(b, m);
    } else {
      assert a == [a[0]] + a[1..] && t == [a[0]] + (a[1..] + ([c] + b));
      assert !(m <= a);
      ReplaceDrops(a[0], a[1..] + ([c] + b), m);
      ReplaceDrops(a[0], a[1..], m);
      ReplaceAtWall(a[1..], c, b, m);
      ConcatAssociates([a[0]], Replace(a[1..], m), [c] + Replace(b, m));
    }
  }

  lemma {:induction false} RedactAtWall(a: string, c: char, b: string, order: seq<string>)
    requires Foreign(c, order)
    ensures RedactInOrder(a + ([c] + b), order) == RedactInOrder(a, order) + ([c] + RedactInOrder(b, order))
    decreases |order|
  {
    if order != [] {
      hide Replace;
      var m := order[0];
      assert Foreign(c, order[1..]) by {
        forall i | 0 <= i < |order[1..]| ensures c !in order[1..][i] { assert order[1..][i] == order[i + 1]; }
      }
      if m == "" {
        RedactAtWall(a, c, b, order[1..]);
      } else {
        ReplaceAtWall(a, c, b, m);
        RedactAtWall(Replace(a, m), c, Replace(b, m), order[1..]);
      }
    }
  }

  lemma OccursOver(t: string, i: nat, n: string, k: nat)
    requires OccursAt(t, i, n) && i <= k < i + |n|
    ensures t[k] in n
  {
    assert n[k - i] == t[i..i + |n|][k - i];
  }

  /** An occurrence stands on one side of a wall. */
  lemma OneSide(a: string, c: char, b: string, n: string)
    requires n != "" && c !in n && Contains(a + ([c] + b), n)
    ensures Contains(a, n) || Contains(b, n)
  {
    var t := a + ([c] + b);
    var i :| 0 <= i <= |t| && OccursAt(t, i, n);
    assert t[|a|] == c;
    if i + |n| <= |a| {
      assert a[i..i + |n|] == t[i..i + |n|];
      ContainsIn(a, i, n);
    } else if i > |a| {
      assert b[i - |a| - 1..i - |a| - 1 + |n|] == t[i..i + |n|];
      ContainsIn(b, i - |a| - 1, n);
    } else {
      OccursOver(t, i, n, |a|);
    }
  }

  /** A text that leaves `n` holds one without foreign characters that does. */
  lemma OwnSurvivor(t: string, order: seq<string>, n: string) returns (u: string)
    requires n != "" && n in order && Contains(RedactInOrder(t, order), n)
    ensures Contains(RedactInOrder(u, order), n) && forall i | 0 <= i < |u| :: !Foreign(u[i], order)
    decreases |t|
  {
    hide RedactInOrder;
    hide Contains;
    if i :| 0 <= i < |t| && Foreign(t[i], order) {
      var a, b := t[..i], t[i + 1..];
      assert t == a + ([t[i]] + b);
      RedactAtWall(a, t[i], b, order);
      OneSide(RedactInOrder(a, order), t[i], RedactInOrder(b, order), n);
      if Contains(RedactInOrder(a, order), n) {
        u := OwnSurvivor(a, order, n);
      } else {
        u := OwnSurvivor(b, order, n);
      }
    } else {
      u := t;
    }
  }

  // ---------------------------------------------------------------- finitely many texts decide

  function Bound(order: seq<string>): nat {
    2 * (Holdings(order) * Holdings(order))
  }

  /** A text short enough, of the markers' own characters. */
  predicate IsProbe(t: string, order: seq<string>) {
    |t| < Bound(order) && forall i | 0 <= i < |t| :: !Foreign(t[i], order)
  }

  /** No short text of the markers' own characters keeps a marker, in any order. */
  ghost predicate SafeAlone(markers: set<string>) {
    forall t: string, order: seq<string> | Enumerates(order, markers) && IsProbe(t, order) ::
      !ContainsMarker(RedactInOrder(t, order), markers)
  }

  lemma {:induction false} WidthWithin(order: seq<string>, n: string)
    requires n in order
    ensures Width(n) <= Holdings(order)
  {
    var w, rest := Width(order[0]), Holdings(order[1..]);
    if n == order[0] {
      assert w * 1 <= w * rest;
    } else {
      assert n in order[1..];
      WidthWithin(order[1..], n);
      assert 1 * rest <= w * rest;
    }
  }

  lemma StatesWithin(order: seq<string>, n: string)
    requires n in order
    ensures StateCount(order, n) <= Bound(order)
  {
    hide Width;
    hide Holdings;
    WidthWithin(order, n);
    assert Width(n) * Holdings(order) <= Holdings(order) * Holdings(order);
  }

  /** A text that leaves `n` at all is answered by a probe that does. */
  lemma ProbeSurvives(t: string, order: seq<string>, n: string) returns (u: string)
    requires n != "" && n in order && Contains(RedactInOrder(t, order), n)
    ensures IsProbe(u, order) && Contains(RedactInOrder(u, order), n)
  {
    hide RedactInOrder;
    hide Contains;
    hide StateCount;
    hide Bound;
    hide Foreign;
    var own := OwnSurvivor(t, order, n);
    u := ShortSurvivor(own, order, n);
    StatesWithin(order, n);
    forall i | 0 <= i < |u| ensures !Foreign(u[i], order) {
      assert u[i] in own;
    }
  }

  lemma NoneLeft(t: string, order: seq<string>, markers: set<string>)
    requires SafeAlone(markers) && Enumerates(order, markers)
    ensures !ContainsMarker(RedactInOrder(t, order), markers)
  {
    hide RedactInOrder;
    hide Contains;
    hide IsProbe;
    if ContainsMarker(RedactInOrder(t, order), markers) {
      var n :| n in markers && n != "" && Contains(RedactInOrder(t, order), n);
      var u := ProbeSurvives(t, order, n);
      hide ContainsMarker;
      MarkerFound(RedactInOrder(u, order), n, markers);
    }
  }

  /** No redaction by exactly these markers ever leaves one if and only if no probe does. */
  lemma SafeAloneIff(markers: set<string>)
    ensures SafeAlone(markers)
            <==> forall t: string, order: seq<string> | Enumerates(order, markers) ::
                   !ContainsMarker(RedactInOrder(t, order), markers)
  {
    hide RedactInOrder;
    hide ContainsMarker;
    hide IsProbe;
    if SafeAlone(markers) {
      forall t: string, order: seq<string> | Enumerates(order, markers)
        ensures !ContainsMarker(RedactInOrder(t, order), markers)
      {
        NoneLeft(t, order, markers);
      }
    } else {
      var t: string, order: seq<string> :|
        Enumerates(order, markers) && IsProbe(t, order) && ContainsMarker(RedactInOrder(t, order), markers);
      assert Enumerates(order, markers) && ContainsMarker(RedactInOrder(t, order), markers);
    }
  }

  /** Where each marker contains one that does not overlap the sentinel, none is left. */
  lemma CoveredIsSafe(markers: set<string>)
    requires AllCovered(markers)
    ensures SafeAlone(markers)
  {
    hide RedactInOrder;
    hide ContainsMarker;
    hide AllCovered;
    forall t: string, order: seq<string> | Enumerates(order, markers) && IsProbe(t, order)
      ensures !ContainsMarker(RedactInOrder(t, order), markers)
    {
      RedactedTextIsMarkerFree(t, order, markers);
    }
  }
}
