/** The embedding layer's decision: k nearest exemplars by cosine similarity, majority vote, and the
    conditions under which it declines. */
module EmbeddingRouting {
  import opened Wrappers
  import opened CodePointOrder
  import opened PyStrings
  import opened Sequences
  import opened UnitVectors

  // ---------------------------------------------------------------- query text

  datatype Piece = TextPiece(s: string) | MappingPiece(text: Option<string>) | OtherPiece

  /** A message's `content`; a part mapping carries its `text` if that is a string. */
  datatype Content = TextContent(s: string) | PartsContent(pieces: seq<Piece>) | NoContent

  function PieceText(p: Piece): seq<string> {
    match p
    case TextPiece(s) => [s]
    case MappingPiece(Some(s)) => [s]
    case _ => []
  }

  function PiecesText(ps: seq<Piece>): seq<string> {
    if ps == [] then [] else PiecesText(ps[..|ps| - 1]) + PieceText(ps[|ps| - 1])
  }

  function ContentText(c: Content): seq<string> {
    match c
    case TextContent(s) => [s]
    case PartsContent(ps) => PiecesText(ps)
    case NoContent => []
  }

  /** Every string a payload contributes, in order. */
  function PayloadTexts(messages: seq<Content>): seq<string> {
    if messages == [] then []
    else PayloadTexts(messages[..|messages| - 1]) + ContentText(messages[|messages| - 1])
  }

  lemma OneMorePiece(ps: seq<Piece>, p: Piece)
    ensures PiecesText(ps + [p]) == PiecesText(ps) + PieceText(p)
  {
    assert (ps + [p])[..|ps|] == ps;
  }

  lemma OneMoreMessage(cs: seq<Content>, c: Content)
    ensures PayloadTexts(cs + [c]) == PayloadTexts(cs) + ContentText(c)
  {
    assert (cs + [c])[..|cs|] == cs;
  }

  /** The string parts of one multi-part message. */
  method ExtendWithPieces(parts: seq<string>, pieces: seq<Piece>) returns (longer: seq<string>)
    ensures longer == parts + PiecesText(pieces)
  {
    hide PiecesText;
    longer := parts;
    NothingSaid();
    for j := 0 to |pieces|
      invariant longer == parts + PiecesText(pieces[..j])
    {
      assert pieces[..j + 1] == pieces[..j] + [pieces[j]];
      OneMorePiece(pieces[..j], pieces[j]);
      match pieces[j] {
        case TextPiece(s) => longer := longer + [s];
        case MappingPiece(t) => if t.Some? { longer := longer + [t.value]; }
        case OtherPiece =>
      }
    }
    assert pieces[..|pieces|] == pieces;
  }

  lemma NothingSaid()
    ensures PiecesText([]) == [] && PayloadTexts([]) == []
  {
  }

  method EmbeddingQueryText(messages: seq<Content>) returns (text: string)
    ensures text == Strip(JoinLines(PayloadTexts(messages)))
    ensures text == "" <==> forall i | 0 <= i < |PayloadTexts(messages)| :: AllSpace(PayloadTexts(messages)[i])
  {
    hide PiecesText;
    hide PayloadTexts;
    hide Strip;
    hide JoinLines;
    hide AllSpace;
    var parts := [];
    NothingSaid();
    for i := 0 to |messages|
      invariant parts == PayloadTexts(messages[..i])
    {
      assert messages[..i + 1] == messages[..i] + [messages[i]];
      OneMoreMessage(messages[..i], messages[i]);
      match messages[i] {
        case TextContent(s) => parts := parts + [s];
        case PartsContent(pieces) => parts := ExtendWithPieces(parts, pieces);
        case NoContent =>
      }
    }
    assert messages[..|messages|] == messages;
    text := Strip(JoinLines(parts));
    StripEmptyIff(JoinLines(parts));
    JoinAllSpaceIff(parts);
  }

  // ---------------------------------------------------------------- nearest first

  datatype Scored = Scored(sim: real, candidate: string)

  /** The sort key `(-similarity, candidate)`. */
  predicate Before(a: Scored, b: Scored) {
    a.sim > b.sim || (a.sim == b.sim && Leq(a.candidate, b.candidate))
  }

  predicate Ordered(xs: seq<Scored>) {
    forall i, j | 0 <= i < j < |xs| :: Before(xs[i], xs[j])
  }

  lemma BeforeTotal(a: Scored, b: Scored)
    ensures Before(a, b) || Before(b, a)
    ensures Before(a, b) && Before(b, a) ==> a == b
  {
    LeqTotal(a.candidate, b.candidate);
    if Leq(a.candidate, b.candidate) && Leq(b.candidate, a.candidate) {
      LeqAntisymmetric(a.candidate, b.candidate);
    }
  }

  lemma BeforeTransitive(a: Scored, b: Scored, c: Scored)
    requires Before(a, b) && Before(b, c)
    ensures Before(a, c)
  {
    if a.sim == b.sim == c.sim { LeqTransitive(a.candidate, b.candidate, c.candidate); }
  }

  function InsertScored(x: Scored, xs: seq<Scored>): (ys: seq<Scored>)
    requires Ordered(xs)
    ensures Ordered(ys) && multiset(ys) == multiset(xs) + multiset{x}
  {
    if xs == [] then [x]
    else
      BeforeTotal(x, xs[0]);
      if Before(x, xs[0]) then
        InsertFirst(x, xs);
        [x] + xs
      else
        var rest := InsertScored(x, xs[1..]);
        InsertLater(x, xs, rest);
        [xs[0]] + rest
  }

  lemma InsertFirst(x: Scored, xs: seq<Scored>)
    requires Ordered(xs) && xs != [] && Before(x, xs[0])
    ensures Ordered([x] + xs) && multiset([x] + xs) == multiset(xs) + multiset{x}
  {
    var ys := [x] + xs;
    forall i, j | 0 <= i < j < |ys| ensures Before(ys[i], ys[j]) {
      if i == 0 && j > 1 { BeforeTransitive(x, xs[0], xs[j - 1]); }
    }
  }

  lemma InsertLater(x: Scored, xs: seq<Scored>, rest: seq<Scored>)
    requires Ordered(xs) && xs != [] && Before(xs[0], x)
    requires Ordered(rest) && multiset(rest) == multiset(xs[1..]) + multiset{x}
    ensures Ordered([xs[0]] + rest) && multiset([xs[0]] + rest) == multiset(xs) + multiset{x}
  {
    assert xs == [xs[0]] + xs[1..];
    forall j | 0 <= j < |rest| ensures Before(xs[0], rest[j]) {
      assert rest[j] in multiset(rest);
      if rest[j] != x {
        assert rest[j] in xs[1..];
        var i :| 0 <= i < |xs[1..]| && xs[1..][i] == rest[j];
        assert xs[i + 1] == rest[j];
      }
    }
  }

  /** `sorted(..)` under that key. */
  function SortScored(xs: seq<Scored>): (ys: seq<Scored>)
    ensures Ordered(ys) && multiset(ys) == multiset(xs) && |ys| == |xs|
  {
    if xs == [] then []
    else
      assert xs == [xs[0]] + xs[1..];
      var ys := InsertScored(xs[0], SortScored(xs[1..]));
      assert |multiset(ys)| == |multiset(xs)|;
      ys
  }

  lemma BestComeFirst(xs: seq<Scored>, ys: seq<Scored>)
    requires Ordered(xs) && Ordered(ys) && xs != [] && ys != [] && xs[0] in ys && ys[0] in xs
    ensures xs[0] == ys[0]
  {
    hide Before;
    var i :| 0 <= i < |ys| && ys[i] == xs[0];
    var j :| 0 <= j < |xs| && xs[j] == ys[0];
    if i != 0 && j != 0 {
      assert Before(xs[0], xs[j]) && Before(ys[0], ys[i]);
      BeforeTotal(xs[0], ys[0]);
    }
  }

  lemma TailBag<T>(xs: seq<T>)
    requires xs != []
    ensures multiset(xs[1..]) == multiset(xs) - multiset{xs[0]}
  {
    assert xs == [xs[0]] + xs[1..];
  }

  lemma TailOrdered(xs: seq<Scored>)
    requires Ordered(xs) && xs != []
    ensures Ordered(xs[1..])
  {
    hide Before;
  }

  /** An ordered sequence is determined by its elements, ties included. */
  lemma {:induction false} OrderedUnique(xs: seq<Scored>, ys: seq<Scored>)
    requires Ordered(xs) && Ordered(ys) && multiset(xs) == multiset(ys)
    ensures xs == ys
    decreases |xs|
  {
    hide *;
    if xs == [] {
      SameBagSameLength(xs, ys);
    } else {
      SameBagSameLength(xs, ys);
      SameBagSameElements(xs, ys, xs[0]);
      SameBagSameElements(ys, xs, ys[0]);
      BestComeFirst(xs, ys);
      TailBag(xs);
      TailBag(ys);
      TailOrdered(xs);
      TailOrdered(ys);
      OrderedUnique(xs[1..], ys[1..]);
      assert xs == [xs[0]] + xs[1..] && ys == [ys[0]] + ys[1..];
    }
  }

  // ---------------------------------------------------------------- votes

  function Candidates(top: seq<Scored>): multiset<string> {
    if top == [] then multiset{} else Candidates(top[..|top| - 1]) + multiset{top[|top| - 1].candidate}
  }

  /** How many of the nearest carry `c`, and their similarities added up. */
  function Votes(top: seq<Scored>, c: string): nat {
    if top == [] then 0
    else Votes(top[..|top| - 1], c) + if top[|top| - 1].candidate == c then 1 else 0
  }

  function Total(top: seq<Scored>, c: string): real {
    if top == [] then 0.0
    else Total(top[..|top| - 1], c) + if top[|top| - 1].candidate == c then top[|top| - 1].sim else 0.0
  }

  /** `max` key `(votes, summed similarity, candidate)`: `w` strictly above `c`. */
  predicate Outranks(top: seq<Scored>, w: string, c: string) {
    Votes(top, w) > Votes(top, c)
    || (Votes(top, w) == Votes(top, c)
        && (Total(top, w) > Total(top, c) || (Total(top, w) == Total(top, c) && Less(c, w))))
  }

  predicate IsWinner(top: seq<Scored>, w: string) {
    w in Candidates(top) && forall c | c in Candidates(top) && c != w :: Outranks(top, w, c)
  }

  lemma WinnerUnique(top: seq<Scored>, v: string, w: string)
    requires IsWinner(top, v) && IsWinner(top, w)
    ensures v == w
  {
    if v != w {
      assert Outranks(top, v, w) && Outranks(top, w, v);
      LeqAntisymmetricPair(v, w);
    }
  }

  lemma LeqAntisymmetricPair(v: string, w: string)
    ensures !(Less(v, w) && Less(w, v))
  {
    if Less(v, w) && Less(w, v) { LeqAntisymmetric(v, w); }
  }

  /** Each candidate's votes are its share of the nearest, so the votes add up to their number. */
  lemma {:induction false} VotesAreShares(top: seq<Scored>)
    ensures |Candidates(top)| == |top|
    ensures forall c :: Votes(top, c) == Candidates(top)[c]
  {
    if top != [] { VotesAreShares(top[..|top| - 1]); }
  }

  /** One more of the nearest adds one vote and its similarity to its own candidate only. */
  lemma OneMoreVote(top: seq<Scored>, s: Scored, c: string)
    ensures Candidates(top + [s]) == Candidates(top) + multiset{s.candidate}
    ensures Votes(top + [s], c) == Votes(top, c) + if s.candidate == c then 1 else 0
    ensures Total(top + [s], c) == Total(top, c) + if s.candidate == c then s.sim else 0.0
  {
    assert (top + [s])[..|top|] == top;
  }

  /** What `agg` holds after the nearest in `top`. */
  ghost predicate Tallied(top: seq<Scored>, agg: map<string, (nat, real)>) {
    forall c :: Tally(top, agg, c)
  }

  ghost predicate Tally(top: seq<Scored>, agg: map<string, (nat, real)>, c: string) {
    if c in agg then c in Candidates(top) && agg[c] == (Votes(top, c), Total(top, c))
    else c !in Candidates(top) && Votes(top, c) == 0 && Total(top, c) == 0.0
  }

  lemma TalliedMore(top: seq<Scored>, agg: map<string, (nat, real)>, s: Scored, more: map<string, (nat, real)>)
    requires Tallied(top, agg)
    requires var (count, total) := if s.candidate in agg then agg[s.candidate] else (0, 0.0);
             more == agg[s.candidate := (count + 1, total + s.sim)]
    ensures Tallied(top + [s], more)
  {
    hide Votes;
    hide Total;
    hide Candidates;
    forall c ensures Tally(top + [s], more, c) {
      assert Tally(top, agg, c) && Tally(top, agg, s.candidate);
      OneMoreVote(top, s, c);
    }
  }

  method Aggregate(top: seq<Scored>) returns (agg: map<string, (nat, real)>)
    ensures Tallied(top, agg)
  {
    hide Tallied;
    agg := map[];
    assert Tallied([], agg) by { NothingTallied(); }
    for i := 0 to |top|
      invariant Tallied(top[..i], agg)
    {
      var s := top[i];
      ghost var before := agg;
      var (count, total) := if s.candidate in agg then agg[s.candidate] else (0, 0.0);
      agg := agg[s.candidate := (count + 1, total + s.sim)];
      TalliedMore(top[..i], before, s, agg);
      assert top[..i + 1] == top[..i] + [s];
    }
    assert top[..|top|] == top;
  }

  lemma NothingTallied()
    ensures Tallied([], map[])
  {
  }

  method MaxCandidate(top: seq<Scored>, agg: map<string, (nat, real)>) returns (winner: string)
    requires Tallied(top, agg) && agg.Keys != {}
    ensures IsWinner(top, winner)
  {
    hide Votes;
    hide Total;
    hide Candidates;
    var todo := agg.Keys;
    winner :| winner in todo;
    todo := todo - {winner};
    while todo != {}
      invariant todo <= agg.Keys && winner in agg && winner !in todo
      invariant forall c | c in agg && c !in todo && c != winner :: Outranks(top, winner, c)
      decreases todo
    {
      var c :| c in todo;
      todo := todo - {c};
      RankTotal(top, c, winner);
      assert Tally(top, agg, c) && Tally(top, agg, winner);
      var ((n, x), (m, y)) := (agg[c], agg[winner]);
      if n > m || (n == m && (x > y || (x == y && Less(winner, c)))) {
        forall d | d in agg && d !in todo && d != c ensures Outranks(top, c, d) {
          if d != winner { RankTransitive(top, c, winner, d); }
        }
        winner := c;
      }
    }
    assert Tally(top, agg, winner);
    forall c | c in Candidates(top) && c != winner ensures Outranks(top, winner, c) {
      assert Tally(top, agg, c);
    }
  }

  lemma RankTotal(top: seq<Scored>, a: string, b: string)
    ensures a != b ==> Outranks(top, a, b) || Outranks(top, b, a)
  {
    LeqTotal(a, b);
  }

  lemma RankTransitive(top: seq<Scored>, a: string, b: string, c: string)
    requires Outranks(top, a, b) && Outranks(top, b, c)
    ensures Outranks(top, a, c)
  {
    hide Votes;
    hide Total;
    if Less(b, a) && Less(c, b) {
      LeqTransitive(c, b, a);
      LeqAntisymmetricPair(b, c);
    }
  }

  lemma SomeTallied(top: seq<Scored>, agg: map<string, (nat, real)>)
    requires top != [] && Tallied(top, agg)
    ensures agg.Keys != {}
  {
    hide Votes;
    hide Total;
    assert top[|top| - 1].candidate in Candidates(top);
    assert Tally(top, agg, top[|top| - 1].candidate);
  }

  // ---------------------------------------------------------------- the decision

  datatype Exemplar = Exemplar(text: string, candidate: string, workloadClass: string)

  datatype Embedded = Embedded(vector: Vector, candidate: string)

  datatype ValueError = IllegalK | DimensionMismatch

  function EmbedCorpus(sqrt: real -> real, embed: string -> Vector, exemplars: seq<Exemplar>): (es: seq<Embedded>)
    ensures |es| == |exemplars|
  {
    seq(|exemplars|, i requires 0 <= i < |exemplars| =>
      Embedded(Normalize(sqrt, embed(exemplars[i].text)), exemplars[i].candidate))
  }

  predicate SameDimension(query: Vector, es: seq<Embedded>) {
    forall i | 0 <= i < |es| :: |es[i].vector| == |query|
  }

  function ScoreAll(query: Vector, es: seq<Embedded>): (xs: seq<Scored>)
    requires SameDimension(query, es)
    ensures |xs| == |es|
    ensures forall i | 0 <= i < |es| :: xs[i] == Scored(Dot(query, es[i].vector), es[i].candidate)
  {
    seq(|es|, i requires 0 <= i < |es| => Scored(Dot(query, es[i].vector), es[i].candidate))
  }

  function Min(a: nat, b: nat): nat {
    if a <= b then a else b
  }

  /** The exemplars that vote. */
  function Nearest(query: Vector, es: seq<Embedded>, k: nat): seq<Scored>
    requires SameDimension(query, es)
  {
    SortScored(ScoreAll(query, es))[..Min(k, |es|)]
  }

  ghost predicate Best(query: Vector, es: seq<Embedded>, best: real)
    requires SameDimension(query, es)
  {
    (exists i | 0 <= i < |es| :: Dot(query, es[i].vector) == best)
    && forall i | 0 <= i < |es| :: Dot(query, es[i].vector) <= best
  }

  /** What the layer must answer for a normalised query of the corpus's dimension. */
  ghost predicate Decides(query: Vector, es: seq<Embedded>, k: nat, minSimilarity: real, answer: Option<string>)
    requires SameDimension(query, es) && es != []
  {
    exists best :: Best(query, es, best) &&
      if best < minSimilarity then answer.None?
      else answer.Some? && IsWinner(Nearest(query, es, k), answer.value)
  }

  lemma FirstIsBest(query: Vector, es: seq<Embedded>)
    requires SameDimension(query, es) && es != []
    ensures Best(query, es, SortScored(ScoreAll(query, es))[0].sim)
  {
    var raw := ScoreAll(query, es);
    var sorted := SortScored(raw);
    assert sorted[0] in multiset(raw);
    var i :| 0 <= i < |raw| && raw[i] == sorted[0];
    assert Dot(query, es[i].vector) == sorted[0].sim;
    forall j | 0 <= j < |es| ensures Dot(query, es[j].vector) <= sorted[0].sim {
      assert raw[j] in multiset(sorted);
      var n :| 0 <= n < |sorted| && sorted[n] == raw[j];
      assert n > 0 ==> Before(sorted[0], sorted[n]);
    }
  }

  lemma NearestIs(query: Vector, es: seq<Embedded>, k: nat)
    requires SameDimension(query, es) && es != [] && k >= 1
    ensures var scored := SortScored(ScoreAll(query, es));
            var n := Min(k, |es|);
            0 < n <= |scored| && Nearest(query, es, k) == scored[..n]
  {
  }

  lemma Declines(query: Vector, es: seq<Embedded>, k: nat, minSimilarity: real)
    requires SameDimension(query, es) && es != [] && SortScored(ScoreAll(query, es))[0].sim < minSimilarity
    ensures Decides(query, es, k, minSimilarity, None)
  {
    hide Best;
    FirstIsBest(query, es);
  }

  lemma Answers(query: Vector, es: seq<Embedded>, k: nat, minSimilarity: real, winner: string)
    requires SameDimension(query, es) && es != [] && SortScored(ScoreAll(query, es))[0].sim >= minSimilarity
    requires IsWinner(Nearest(query, es, k), winner)
    ensures Decides(query, es, k, minSimilarity, Some(winner))
  {
    hide Best;
    hide Nearest;
    hide IsWinner;
    FirstIsBest(query, es);
  }

  method EmbeddingDecision(sqrt: real -> real, embed: string -> Vector, exemplars: seq<Exemplar>, k: int,
                           minSimilarity: real, messages: seq<Content>)
    returns (r: Result<Option<string>, ValueError>)
    requires exemplars != []
    ensures var texts := PayloadTexts(messages);
            var text := Strip(JoinLines(texts));
            var es := EmbedCorpus(sqrt, embed, exemplars);
            var query := Normalize(sqrt, embed(text));
            if k < 1 then r == Err(IllegalK)
            else if forall i | 0 <= i < |texts| :: AllSpace(texts[i]) then r == Ok(None)
            else if !SameDimension(query, es) then r == Err(DimensionMismatch)
            else r.Ok? && Decides(query, es, k, minSimilarity, r.value)
  {
    hide *;
    if k < 1 {
      return Err(IllegalK);
    }
    var es := EmbedCorpus(sqrt, embed, exemplars);
    var effectiveK := Min(k, |es|);
    var text := EmbeddingQueryText(messages);
    if text == "" {
      return Ok(None);
    }
    var query := Normalize(sqrt, embed(text));
    if !SameDimension(query, es) {
      return Err(DimensionMismatch);
    }
    var scored := SortScored(ScoreAll(query, es));
    NearestIs(query, es, k);
    if scored[0].sim < minSimilarity {
      Declines(query, es, k, minSimilarity);
      return Ok(None);
    }
    var top := scored[..effectiveK];
    var agg := Aggregate(top);
    SomeTallied(top, agg);
    var winner := MaxCandidate(top, agg);
    Answers(query, es, k, minSimilarity, winner);
    r := Ok(Some(winner));
  }

  // ---------------------------------------------------------------- what the answer does not depend on

  function ScoreOne(query: Vector, e: Embedded): Scored
    requires |e.vector| == |query|
  {
    Scored(Dot(query, e.vector), e.candidate)
  }

  lemma ScoreWithout(query: Vector, es: seq<Embedded>, i: nat)
    requires SameDimension(query, es) && i < |es|
    ensures SameDimension(query, Without(es, i))
    ensures multiset(ScoreAll(query, es))
         == multiset(ScoreAll(query, Without(es, i))) + multiset{ScoreOne(query, es[i])}
  {
    hide Dot;
    var xs, ys := ScoreAll(query, es), ScoreAll(query, Without(es, i));
    assert ys == Without(xs, i);
    WithoutBag(xs, i);
  }

  lemma SameDimensionOfBag(query: Vector, es: seq<Embedded>, fs: seq<Embedded>)
    requires SameDimension(query, es) && multiset(es) == multiset(fs)
    ensures SameDimension(query, fs)
  {
    forall i | 0 <= i < |fs| ensures |fs[i].vector| == |query| {
      SameBagSameElements(fs, es, fs[i]);
    }
  }

  lemma {:induction false} ScoreBag(query: Vector, es: seq<Embedded>, fs: seq<Embedded>)
    requires SameDimension(query, es) && multiset(es) == multiset(fs)
    ensures SameDimension(query, fs) && multiset(ScoreAll(query, es)) == multiset(ScoreAll(query, fs))
    decreases |es|
  {
    hide *;
    SameDimensionOfBag(query, es, fs);
    if es == [] {
      SameBagSameLength(es, fs);
    } else {
      SameBagSameElements(es, fs, es[0]);
      var i :| 0 <= i < |fs| && fs[i] == es[0];
      WithoutBag(es, 0);
      WithoutBag(fs, i);
      ScoreWithout(query, es, 0);
      ScoreWithout(query, fs, i);
      ScoreBag(query, Without(es, 0), Without(fs, i));
    }
  }

  /** Permuting the corpus changes neither the scored sequence nor, therefore, the votes or the answer. */
  lemma CorpusOrderIrrelevant(query: Vector, es: seq<Embedded>, fs: seq<Embedded>, k: nat, minSimilarity: real,
                              a: Option<string>, b: Option<string>)
    requires SameDimension(query, es) && SameDimension(query, fs)
    requires es != [] && fs != [] && multiset(es) == multiset(fs)
    requires Decides(query, es, k, minSimilarity, a) && Decides(query, fs, k, minSimilarity, b)
    ensures SortScored(ScoreAll(query, es)) == SortScored(ScoreAll(query, fs))
    ensures Nearest(query, es, k) == Nearest(query, fs, k) && a == b
  {
    ScoreBag(query, es, fs);
    OrderedUnique(SortScored(ScoreAll(query, es)), SortScored(ScoreAll(query, fs)));
    FirstIsBest(query, es);
    FirstIsBest(query, fs);
    assert |es| == |multiset(es)| == |fs|;
    if a.Some? && b.Some? { WinnerUnique(Nearest(query, es, k), a.value, b.value); }
  }

  /** The voters are `min(k, n)` of the corpus, none farther than anyone left out, and their votes add up
      to that number. */
  lemma NearestAreNearest(query: Vector, es: seq<Embedded>, k: nat)
    requires SameDimension(query, es)
    ensures var top := Nearest(query, es, k);
            var rest := SortScored(ScoreAll(query, es))[Min(k, |es|)..];
            && |top| == Min(k, |es|) && |Candidates(top)| == Min(k, |es|)
            && multiset(top) + multiset(rest) == multiset(ScoreAll(query, es))
            && forall i, j | 0 <= i < |top| && 0 <= j < |rest| :: Before(top[i], rest[j])
  {
    hide Before;
    hide Candidates;
    hide ScoreAll;
    hide SortScored;
    var sorted, n := SortScored(ScoreAll(query, es)), Min(k, |es|);
    assert sorted == sorted[..n] + sorted[n..];
    VotesAreShares(sorted[..n]);
  }

  /** A threshold above one always declines. */
  lemma ThresholdAboveOneDeclines(sqrt: real -> real, embed: string -> Vector, exemplars: seq<Exemplar>, q: Vector,
                                  k: nat, minSimilarity: real, answer: Option<string>)
    requires IsSquareRoot(sqrt) && exemplars != [] && minSimilarity > 1.0
    requires var es := EmbedCorpus(sqrt, embed, exemplars);
             SameDimension(Normalize(sqrt, q), es) && Decides(Normalize(sqrt, q), es, k, minSimilarity, answer)
    ensures answer == None
  {
    var es := EmbedCorpus(sqrt, embed, exemplars);
    var query := Normalize(sqrt, q);
    forall i | 0 <= i < |es| ensures Dot(query, es[i].vector) <= 1.0 {
      assert |es[i].vector| == |query|;
      SimilarityInRange(sqrt, q, embed(exemplars[i].text));
    }
  }

  // ---------------------------------------------------------------- the answer spelled out

  /** Every exemplar is scored by the dot product of the normalised query with its own normalised vector, and
      carries its own candidate. */
  lemma EachExemplarScored(sqrt: real -> real, embed: string -> Vector, exemplars: seq<Exemplar>, query: Vector, i: nat)
    requires i < |exemplars| && SameDimension(query, EmbedCorpus(sqrt, embed, exemplars))
    ensures var u := Normalize(sqrt, embed(exemplars[i].text));
            && |u| == |query|
            && ScoreAll(query, EmbedCorpus(sqrt, embed, exemplars))[i]
               == Scored(Dot(query, u), exemplars[i].candidate)
  {
    hide Dot;
    hide Normalize;
    assert EmbedCorpus(sqrt, embed, exemplars)[i].vector == Normalize(sqrt, embed(exemplars[i].text));
  }

  /** The layer declines exactly when every exemplar is below the threshold.  Otherwise the voters come in
      descending similarity, ties by candidate, and the answer is a voter's candidate: none has more votes,
      of those with as many none a greater sum, of those with the same sum none is a greater string. */
  lemma AnswerRanks(query: Vector, es: seq<Embedded>, k: nat, minSimilarity: real, answer: Option<string>)
    requires SameDimension(query, es) && es != [] && Decides(query, es, k, minSimilarity, answer)
    ensures answer == None <==> forall i | 0 <= i < |es| :: Dot(query, es[i].vector) < minSimilarity
    ensures answer.Some? ==>
              var (w, top) := (answer.value, Nearest(query, es, k));
              && |top| == (if k < |es| then k else |es|)
              && (exists i | 0 <= i < |top| :: top[i].candidate == w)
              && (forall i, j | 0 <= i < j < |top| ::
                    && top[i].sim >= top[j].sim
                    && (top[i].sim == top[j].sim ==> Leq(top[i].candidate, top[j].candidate)))
              && forall i | 0 <= i < |top| ::
                   var c := top[i].candidate;
                   && Votes(top, c) <= Votes(top, w)
                   && (Votes(top, c) == Votes(top, w) ==> Total(top, c) <= Total(top, w))
                   && (Votes(top, c) == Votes(top, w) && Total(top, c) == Total(top, w) ==> Leq(c, w))
  {
    hide Dot;
    hide Votes;
    hide Total;
    hide Candidates;
    hide Nearest;
    if answer.Some? {
      var top := Nearest(query, es, k);
      NearestOrdered(query, es, k);
      CandidatesAre(top);
      WinnerRanks(top, answer.value);
      hide IsWinner;
    }
  }

  lemma WinnerRanks(top: seq<Scored>, w: string)
    requires IsWinner(top, w)
    ensures forall c | c in Candidates(top) ::
              && Votes(top, c) <= Votes(top, w)
              && (Votes(top, c) == Votes(top, w) ==> Total(top, c) <= Total(top, w))
              && (Votes(top, c) == Votes(top, w) && Total(top, c) == Total(top, w) ==> Leq(c, w))
  {
    hide Votes;
    hide Total;
    hide Candidates;
    LeqReflexive(w);
    forall c | c in Candidates(top) && c != w ensures Outranks(top, w, c) { }
  }

  lemma NearestOrdered(query: Vector, es: seq<Embedded>, k: nat)
    requires SameDimension(query, es)
    ensures Ordered(Nearest(query, es, k)) && |Nearest(query, es, k)| == if k < |es| then k else |es|
  {
    hide Before;
  }

  lemma {:induction false} CandidatesAre(top: seq<Scored>)
    ensures forall c :: c in Candidates(top) <==> exists i | 0 <= i < |top| :: top[i].candidate == c
  {
    if top != [] {
      var front, last := top[..|top| - 1], top[|top| - 1];
      CandidatesAre(front);
      forall c ensures c in Candidates(top) <==> exists i | 0 <= i < |top| :: top[i].candidate == c {
        if c in Candidates(front) {
          var i :| 0 <= i < |front| && front[i].candidate == c;
          assert top[i].candidate == c;
        }
        if exists i | 0 <= i < |top| :: top[i].candidate == c {
          var i :| 0 <= i < |top| && top[i].candidate == c;
          assert i < |front| ==> front[i].candidate == c;
        }
      }
    }
  }

  /** A candidate's votes are the places it has among the nearest, and its sum runs over those places. */
  lemma VotesCounted(a: seq<Scored>, b: seq<Scored>, s: Scored, c: string)
    ensures Votes(a + b, c) == Votes(a, c) + Votes(b, c) && Total(a + b, c) == Total(a, c) + Total(b, c)
    ensures Votes([s], c) == (if s.candidate == c then 1 else 0)
    ensures Total([s], c) == (if s.candidate == c then s.sim else 0.0)
    ensures Votes([], c) == 0 && Total([], c) == 0.0
  {
    VotesConcat(a, b, c);
    assert [s] == [] + [s];
    OneMoreVote([], s, c);
  }

  lemma {:induction false} VotesConcat(a: seq<Scored>, b: seq<Scored>, c: string)
    ensures Votes(a + b, c) == Votes(a, c) + Votes(b, c) && Total(a + b, c) == Total(a, c) + Total(b, c)
  {
    if b == [] {
      assert a + b == a;
    } else {
      var front, last := b[..|b| - 1], b[|b| - 1];
      VotesConcat(a, front, c);
      assert b == front + [last] && a + b == a + front + [last];
      hide Votes;
      hide Total;
      OneMoreVote(a + front, last, c);
      OneMoreVote(front, last, c);
    }
  }

  /** With one exemplar the layer answers its candidate from the threshold on, and declines below. */
  lemma OneExemplarDecides(query: Vector, e: Embedded, k: nat, minSimilarity: real, answer: Option<string>)
    requires |e.vector| == |query| && Decides(query, [e], k, minSimilarity, answer)
    ensures answer == if Dot(query, e.vector) < minSimilarity then None else Some(e.candidate)
  {
    var es := [e];
    assert es[0] == e;
    AnswerRanks(query, es, k, minSimilarity, answer);
    if answer.Some? {
      var top := Nearest(query, es, k);
      var i :| 0 <= i < |top| && top[i].candidate == answer.value;
      NearestAreScored(query, es, k, i);
    }
    hide *;
  }

  lemma NearestAreScored(query: Vector, es: seq<Embedded>, k: nat, i: nat)
    requires SameDimension(query, es) && i < |Nearest(query, es, k)|
    ensures exists j | 0 <= j < |es| :: Nearest(query, es, k)[i] == Scored(Dot(query, es[j].vector), es[j].candidate)
  {
    hide Dot;
    var xs := ScoreAll(query, es);
    var ys := SortScored(xs);
    assert Nearest(query, es, k)[i] == ys[i];
    SameBagSameElements(ys, xs, ys[i]);
    var j :| 0 <= j < |xs| && xs[j] == ys[i];
    assert xs[j] == Scored(Dot(query, es[j].vector), es[j].candidate);
  }

  /** One exemplar whose vector is a multiple of the query's: pointing the same way it is answered up to a
      threshold of one, pointing the other way it is declined above minus one. */
  lemma MultipleOfQuery(sqrt: real -> real, embed: string -> Vector, e: Exemplar, q: Vector, c: real, k: nat,
                        minSimilarity: real, answer: Option<string>)
    requires IsSquareRoot(sqrt) && Dot(q, q) != 0.0 && c != 0.0 && embed(e.text) == Scale(q, c)
    requires var es := EmbedCorpus(sqrt, embed, [e]);
             && SameDimension(Normalize(sqrt, q), es)
             && Decides(Normalize(sqrt, q), es, k, minSimilarity, answer)
    ensures c > 0.0 ==> answer == if minSimilarity > 1.0 then None else Some(e.candidate)
    ensures c < 0.0 ==> answer == if minSimilarity > -1.0 then None else Some(e.candidate)
  {
    var query, u := Normalize(sqrt, q), Normalize(sqrt, Scale(q, c));
    EmbedOne(sqrt, embed, e);
    hide *;
    DotSelf(q);
    OneExemplarDecides(query, Embedded(u, e.candidate), k, minSimilarity, answer);
    if c > 0.0 {
      ScaledVectorScoresOne(sqrt, q, c);
      DotSymmetric(query, u);
    } else {
      NegativeMultipleScoresMinusOne(sqrt, q, c);
    }
  }

  lemma EmbedOne(sqrt: real -> real, embed: string -> Vector, e: Exemplar)
    ensures EmbedCorpus(sqrt, embed, [e]) == [Embedded(Normalize(sqrt, embed(e.text)), e.candidate)]
  {
    hide Normalize;
  }

  /** The query text holds every string content and every string part, in order, and nothing else. */
  lemma TextsCollected(s: string, a: seq<Content>, b: seq<Content>, ps: seq<Piece>, qs: seq<Piece>)
    ensures PayloadTexts([]) == [] && PayloadTexts(a + b) == PayloadTexts(a) + PayloadTexts(b)
    ensures PayloadTexts([TextContent(s)]) == [s] && PayloadTexts([NoContent]) == []
    ensures PayloadTexts([PartsContent([])]) == []
    ensures PayloadTexts([PartsContent(ps + qs)]) == PayloadTexts([PartsContent(ps)]) + PayloadTexts([PartsContent(qs)])
    ensures PayloadTexts([PartsContent([TextPiece(s)])]) == [s] == PayloadTexts([PartsContent([MappingPiece(Some(s))])])
    ensures PayloadTexts([PartsContent([MappingPiece(None)])]) == [] == PayloadTexts([PartsContent([OtherPiece])])
  {
    TextsConcat(a, b);
    PiecesConcat(ps, qs);
    hide PiecesText;
    OneMessage(TextContent(s));
    OneMessage(NoContent);
    OneMessage(PartsContent([]));
    OneMessage(PartsContent(ps));
    OneMessage(PartsContent(qs));
    OneMessage(PartsContent(ps + qs));
    NothingSaid();
    forall p ensures PiecesText([p]) == PieceText(p) { OnePiece(p); }
    forall p ensures PayloadTexts([PartsContent([p])]) == PiecesText([p]) { OneMessage(PartsContent([p])); }
  }

  lemma OneMessage(c: Content)
    ensures PayloadTexts([c]) == ContentText(c)
  {
    OneMoreMessage([], c);
    assert [c] == [] + [c];
    NothingSaid();
    NoneInFront(ContentText(c));
  }

  lemma OnePiece(p: Piece)
    ensures PiecesText([p]) == PieceText(p)
  {
    OneMorePiece([], p);
    assert [p] == [] + [p];
    NothingSaid();
    NoneInFront(PieceText(p));
  }

  lemma {:induction false} TextsConcat(a: seq<Content>, b: seq<Content>)
    ensures PayloadTexts(a + b) == PayloadTexts(a) + PayloadTexts(b)
  {
    hide *;
    if b == [] {
      assert a + b == a;
      NothingSaid();
    } else {
      var front, last := b[..|b| - 1], b[|b| - 1];
      TextsConcat(a, front);
      assert b == front + [last] && a + b == a + front + [last];
      OneMoreMessage(a + front, last);
      OneMoreMessage(front, last);
      ConcatAssociates(PayloadTexts(a), PayloadTexts(front), ContentText(last));
    }
  }

  lemma {:induction false} PiecesConcat(a: seq<Piece>, b: seq<Piece>)
    ensures PiecesText(a + b) == PiecesText(a) + PiecesText(b)
  {
    hide *;
    if b == [] {
      assert a + b == a;
      NothingSaid();
    } else {
      var front, last := b[..|b| - 1], b[|b| - 1];
      PiecesConcat(a, front);
      assert b == front + [last] && a + b == a + front + [last];
      OneMorePiece(a + front, last);
      OneMorePiece(front, last);
      ConcatAssociates(PiecesText(a), PiecesText(front), PieceText(last));
    }
  }
}
