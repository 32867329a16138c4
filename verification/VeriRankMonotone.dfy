/** With no negative attestations, better inputs never lower a score or remove a row. */
module VeriRankMonotone {
  import opened Text
  import opened VeriRank
  import opened Walks
  import opened VeriRankWalks

  ghost predicate Covers(f: Edge -> real, e: Edge, f': Edge -> real, e': Edge) {
    e'.score >= 0 && e'.issuer == e.issuer && e'.subject == e.subject && f(e) <= f'(e')
  }

  /** Every endorsing edge has a counterpart that multiplies by at least as much. */
  ghost predicate EdgesCovered(f: Edge -> real, edges: seq<Edge>, f': Edge -> real, edges': seq<Edge>) {
    forall e :: e in edges && e.score >= 0 ==> exists e' :: e' in edges' && Covers(f, e, f', e')
  }

  ghost predicate ScoresCovered(a: Scores, b: Scores) {
    forall x :: x in a ==> x in b && a[x] <= b[x]
  }

  lemma MulMonoBoth(a: real, b: real, f: real, g: real)
    requires 0.0 <= a <= b && 0.0 <= f <= g
    ensures 0.0 <= a * f <= b * g
  {
    MulMono(0.0, a, f);
    MulMono(a, b, f);
    MulMono(f, g, b);
  }

  /** Every walk has a counterpart of the same length and end and at least the same value. */
  lemma {:induction false} WalkLifts(f: Edge -> real, edges: seq<Edge>, start: Scores,
                                     f': Edge -> real, edges': seq<Edge>, start': Scores, w: Walk, n: nat)
    returns (u: Walk)
    requires NonNegativeFactors(f) && NonNegativeScores(start)
    requires EdgesCovered(f, edges, f', edges') && ScoresCovered(start, start')
    requires IsEndorsingWalk(edges, start, w, End(w), n)
    ensures IsEndorsingWalk(edges', start', u, End(w), n) && Length(u) == Length(w)
    ensures 0.0 <= Value(f, start, w) <= Value(f', start', u)
    decreases w
  {
    match w
    case From(r) => u := w;
    case Then(p, e) =>
      var q := WalkLifts(f, edges, start, f', edges', start', p, n);
      var e' :| e' in edges' && Covers(f, e, f', e');
      u := Then(q, e');
      LiftStep(f, start, f', start', p, q, e, e');
      hide Value;
  }

  lemma LiftStep(f: Edge -> real, start: Scores, f': Edge -> real, start': Scores, p: Walk, q: Walk, e: Edge, e': Edge)
    requires 0.0 <= Value(f, start, p) <= Value(f', start', q) && 0.0 <= f(e) <= f'(e')
    ensures 0.0 <= Value(f, start, Then(p, e)) <= Value(f', start', Then(q, e'))
  {
    hide Value;
    hide Product;
    ValueThen(f, start, p, e);
    ValueThen(f', start', q, e');
    ProductMono(Value(f, start, p), Value(f', start', q), f(e), f'(e'));
  }

  function Product(a: real, b: real): real {
    a * b
  }

  lemma ProductMono(a: real, b: real, f: real, g: real)
    requires 0.0 <= a <= b && 0.0 <= f <= g
    ensures 0.0 <= Product(a, f) <= Product(b, g)
  {
    MulMonoBoth(a, b, f, g);
  }

  lemma ValueThen(f: Edge -> real, start: Scores, p: Walk, e: Edge)
    ensures Value(f, start, Then(p, e)) == Product(Value(f, start, p), f(e))
  {
  }

  lemma RoundsMonotone(f: Edge -> real, edges: seq<Edge>, hist: seq<Scores>,
                       f': Edge -> real, edges': seq<Edge>, hist': seq<Scores>, n: nat)
    requires Rounds(f, edges, hist) && Rounds(f', edges', hist') && n < |hist| && n < |hist'|
    requires EdgesCovered(f, edges, f', edges') && ScoresCovered(hist[0], hist'[0])
    ensures ScoresCovered(hist[n], hist'[n])
  {
    RoundsNonNegative(f, edges, hist, n);
    RoundsNonNegative(f', edges', hist', n);
    forall x | x in hist[n] ensures x in hist'[n] && hist[n][x] <= hist'[n][x] {
      var w := ScoreIsWalk(f, edges, hist, n, x);
      var u := WalkLifts(f, edges, hist[0], f', edges', hist'[0], w, n);
      WalkBounded(f', edges', hist', n, u);
    }
  }

  /** Decay falls with age. */
  ghost predicate Antitone(decay: int -> real) {
    forall a: nat, b: nat :: a <= b ==> decay(b) <= decay(a)
  }

  /** c' restates an accepted c as no older, and not beyond the tolerated clock skew; a future time has age 0. */
  ghost predicate Fresher(c: Claim, c': Claim, now: int) {
    && c'.issuer == c.issuer && c'.subject == c.subject && c'.delta == c.delta
    && (Accepted(c, now) ==> Accepted(c', now) && Age(c'.issuedAt.value, now) <= Age(c.issuedAt.value, now))
  }

  /** Every claim is still there, at least as fresh; further claims may have been added. */
  ghost predicate ClaimsImproved(claims: seq<Claim>, claims': seq<Claim>, now: int) {
    forall c :: c in claims ==> exists c' :: c' in claims' && Fresher(c, c', now)
  }

  ghost predicate WeightsImproved(g: Setting, g': Setting) {
    g'.decay == g.decay && g'.now == g.now && forall id :: Weight(g, id) <= Weight(g', id)
  }

  predicate Accepted(c: Claim, now: int) {
    c.issuedAt.Some? && c.issuedAt.value <= now + MAX_CLOCK_SKEW
  }

  function EdgeOf(c: Claim, now: int): Edge
    requires Accepted(c, now)
  {
    Edge(c.issuer, c.subject, c.delta, if c.issuedAt.value > now then now else c.issuedAt.value)
  }

  lemma {:induction false} EdgesOfClaims(claims: seq<Claim>, now: int)
    ensures forall e :: e in EdgesOf(claims, now) <==>
            exists c :: c in claims && Accepted(c, now) && e == EdgeOf(c, now)
  {
    if claims != [] {
      var last := |claims| - 1;
      EdgesOfClaims(claims[..last], now);
      forall e
        ensures e in EdgesOf(claims, now) <==> exists c :: c in claims && Accepted(c, now) && e == EdgeOf(c, now)
      {
        if c :| c in claims && Accepted(c, now) && e == EdgeOf(c, now) {
          if c != claims[last] { assert c in claims[..last]; }
        }
        if e in EdgesOf(claims, now) {
          if e in EdgesOf(claims[..last], now) {
            var c :| c in claims[..last] && Accepted(c, now) && e == EdgeOf(c, now);
            assert c in claims;
          } else {
            assert claims[last] in claims && e == EdgeOf(claims[last], now);
          }
        }
      }
    }
  }

  // ----- Freshness is exactly what counts -----

  ghost predicate StrictlyDecreasing(decay: int -> real) {
    (forall a: nat :: decay(a) > 0.0) && forall a: nat, b: nat :: a < b ==> decay(b) < decay(a)
  }

  /** The scores when the claim is the only one and its issuer the only root, at full weight. */
  function Vouched(g: Setting, c: Claim): Scores {
    Hops(g, EdgesOf([c], g.now), Start([Root(c.issuer, 1.0)]), MAX_HOPS).scores
  }

  lemma OneRoot(x: Str)
    ensures InitialScores([Root(x, 1.0)]) == map[x := 100.0]
  {
    assert [Root(x, 1.0)][..0] == [];
  }

  lemma OneClaim(c: Claim, now: int)
    ensures EdgesOf([c], now) == if Accepted(c, now) then [EdgeOf(c, now)] else []
  {
    assert EdgesOf([c][..0], now) == [];
  }

  lemma NoEdgeHops(g: Setting, scores: Scores, n: nat)
    ensures Hops(g, [], State(scores, {}), n) == State(scores, {})
  {
    assert BlacklistOf(g, [], scores) == {};
    assert Override(scores, {}) == scores;
    StableHops(g, [], State(scores, {}), 0, n);
  }

  lemma OneEdgeStep(g: Setting, e: Edge, scores: Scores)
    requires e.score > 0 && e.issuer in scores
    ensures var v := Contribution(g, scores[e.issuer], e);
            Step(g, [e], State(scores, {})) ==
              State(if v > At(scores, e.subject) then scores[e.subject := v] else scores, {})
  {
    hide Contribution;
    assert BlacklistOf(g, [e], scores) == {};
    assert [e][..0] == [] && RelaxAll(g, [e][..0], scores, {}) == scores;
    var next := RelaxAll(g, [e], scores, {});
    assert next == Relax(g, scores, {}, scores, e);
    assert Override(next, {}) == next;
  }

  lemma OneEdgeHops(g: Setting, e: Edge, n: nat)
    requires e.score > 0 && e.issuer != e.subject && Contribution(g, 100.0, e) > 0.0 && n > 0
    ensures Hops(g, [e], State(map[e.issuer := 100.0], {}), n) ==
            State(map[e.issuer := 100.0, e.subject := Contribution(g, 100.0, e)], {})
  {
    hide Contribution;
    hide Step;
    var first: Scores := map[e.issuer := 100.0];
    var second: Scores := map[e.issuer := 100.0, e.subject := Contribution(g, 100.0, e)];
    OneEdgeStep(g, e, first);
    assert second == first[e.subject := Contribution(g, 100.0, e)];
    OneEdgeStep(g, e, second);
    assert Hops(g, [e], State(first, {}), 0) == State(first, {});
    assert Hops(g, [e], State(first, {}), 1) == State(second, {});
    StableHops(g, [e], State(first, {}), 1, n);
  }

  lemma ScalePositive(a: real, d: real, w: real)
    requires a > 0.0 && d > 0.0 && w > 0.0
    ensures a * d * w > 0.0
  {
    assert a * d > 0.0;
  }

  lemma ScaleStrict(a: real, d: real, d': real, w: real)
    requires a > 0.0 && w > 0.0 && d < d'
    ensures a * d * w < a * d' * w
  {
    assert a * d < a * d';
    var x, y := a * d, a * d';
    assert x * w < y * w;
  }

  /** A root's contribution falls exactly when the edge is older. */
  lemma OlderContributesLess(g: Setting, e: Edge, e': Edge)
    requires StrictlyDecreasing(g.decay) && Weight(g, e.issuer) > 0.0
    requires e.score > 0 && e'.issuer == e.issuer && e'.score == e.score && e.timestamp <= g.now &&
             e'.timestamp <= g.now
    ensures Contribution(g, 100.0, e) > 0.0
    ensures Contribution(g, 100.0, e') >= Contribution(g, 100.0, e) <==>
            Age(e'.timestamp, g.now) <= Age(e.timestamp, g.now)
  {
    var a, w := 100.0 * (e.score as real / 100.0) * DISTANCE_DECAY, Weight(g, e.issuer);
    var d, d' := TimeDecay(g, e), TimeDecay(g, e');
    ScalePositive(a, d, w);
    if d < d' {
      ScaleStrict(a, d, d', w);
    } else if d' < d {
      ScaleStrict(a, d', d, w);
    }
  }

  /** The subject's score under a single accepted claim, or without one. */
  lemma VouchedScore(g: Setting, c: Claim)
    requires StrictlyDecreasing(g.decay) && Weight(g, c.issuer) > 0.0 && c.delta > 0 && c.issuer != c.subject
    ensures At(Vouched(g, c), c.subject) == if Accepted(c, g.now) then Contribution(g, 100.0, EdgeOf(c, g.now)) else 0.0
  {
    hide Contribution;
    hide Hops;
    OneRoot(c.issuer);
    OneClaim(c, g.now);
    if Accepted(c, g.now) {
      var e := EdgeOf(c, g.now);
      OlderContributesLess(g, e, e);
      OneEdgeHops(g, e, MAX_HOPS);
    } else {
      NoEdgeHops(g, map[c.issuer := 100.0], MAX_HOPS);
    }
  }

  /** Re-dating a claim keeps the score of its subject from falling if and only if the new date is at least as fresh. */
  lemma FresherIff(g: Setting, c: Claim, c': Claim)
    requires StrictlyDecreasing(g.decay) && Weight(g, c.issuer) > 0.0 && c.delta > 0 && c.issuer != c.subject
    requires Accepted(c, g.now) && c' == c.(issuedAt := c'.issuedAt)
    ensures At(Vouched(g, c), c.subject) > 0.0
    ensures At(Vouched(g, c'), c.subject) >= At(Vouched(g, c), c.subject) <==> Fresher(c, c', g.now)
  {
    hide Contribution;
    hide Vouched;
    VouchedScore(g, c);
    VouchedScore(g, c');
    OlderContributesLess(g, EdgeOf(c, g.now), EdgeOf(c, g.now));
    if Accepted(c', g.now) { OlderContributesLess(g, EdgeOf(c, g.now), EdgeOf(c', g.now)); }
  }

  /**
    Closer is not enough: a claim moved closer to now but past the skew tolerance is dropped, and the score falls to
    0.
   */
  lemma OvershootDropsClaim(g: Setting, c: Claim, c': Claim)
    requires StrictlyDecreasing(g.decay) && Weight(g, c.issuer) > 0.0 && c.delta > 0 && c.issuer != c.subject
    requires Accepted(c, g.now) && c'.issuedAt.Some? && c' == c.(issuedAt := c'.issuedAt)
    requires MAX_CLOCK_SKEW < c'.issuedAt.value - g.now < g.now - c.issuedAt.value
    ensures At(Vouched(g, c'), c.subject) == 0.0 < At(Vouched(g, c), c.subject)
  {
    FresherIff(g, c, c');
    VouchedScore(g, c');
  }

  /**
    Nor for dates within the tolerance: a future date counts as now, so a closer past date is older and scores less.
   */
  lemma CloserCanBeOlder(g: Setting, c: Claim, c': Claim)
    requires StrictlyDecreasing(g.decay) && Weight(g, c.issuer) > 0.0 && c.delta > 0 && c.issuer != c.subject
    requires Accepted(c, g.now) && c'.issuedAt.Some? && c' == c.(issuedAt := c'.issuedAt)
    requires 0 < g.now - c'.issuedAt.value < c.issuedAt.value - g.now
    ensures At(Vouched(g, c'), c.subject) < At(Vouched(g, c), c.subject)
  {
    FresherIff(g, c, c');
  }

  lemma FresherFactor(g: Setting, g': Setting, c: Claim, c': Claim)
    requires NonNegative(g) && Antitone(g.decay) && WeightsImproved(g, g')
    requires Accepted(c, g.now) && Fresher(c, c', g.now) && c.delta >= 0
    ensures Accepted(c', g.now) && Factor(g, EdgeOf(c, g.now)) <= Factor(g', EdgeOf(c', g.now))
  {
    var e, e' := EdgeOf(c, g.now), EdgeOf(c', g.now);
    var sd := (e.score as real / 100.0) * DISTANCE_DECAY;
    assert Age(e'.timestamp, g.now) <= Age(e.timestamp, g.now);
    assert 0.0 <= TimeDecay(g, e) <= TimeDecay(g', e');
    MulMonoBoth(sd, sd, TimeDecay(g, e), TimeDecay(g', e'));
    MulMonoBoth(sd * TimeDecay(g, e), sd * TimeDecay(g', e'), Weight(g, e.issuer), Weight(g', e'.issuer));
  }

  lemma ClaimsCoverEdges(g: Setting, g': Setting, claims: seq<Claim>, claims': seq<Claim>)
    requires NonNegative(g) && Antitone(g.decay) && WeightsImproved(g, g') && ClaimsImproved(claims, claims', g.now)
    ensures EdgesCovered(FactorOf(g), EdgesOf(claims, g.now), FactorOf(g'), EdgesOf(claims', g.now))
  {
    EdgesOfClaims(claims, g.now);
    EdgesOfClaims(claims', g.now);
    forall e | e in EdgesOf(claims, g.now) && e.score >= 0
      ensures exists e' :: e' in EdgesOf(claims', g.now) && Covers(FactorOf(g), e, FactorOf(g'), e')
    {
      var c :| c in claims && Accepted(c, g.now) && e == EdgeOf(c, g.now);
      var c' :| c' in claims' && Fresher(c, c', g.now);
      FresherFactor(g, g', c, c');
      assert Covers(FactorOf(g), e, FactorOf(g'), EdgeOf(c', g.now));
    }
  }

  /**
    Monotonicity: with no negative delta, adding claims, making claims younger,
    and raising root or issuer weights keep every scored principal scored, at no lower a score.
   */
  lemma BetterInputsNeverLower(g: Setting, g': Setting, claims: seq<Claim>, claims': seq<Claim>, start: Scores,
                               start': Scores, n: nat)
    requires NonNegative(g) && NonNegative(g') && Antitone(g.decay) && WeightsImproved(g, g')
    requires NonNegativeScores(start) && NonNegativeScores(start') && ScoresCovered(start, start')
    requires ClaimsImproved(claims, claims', g.now)
    requires (forall c :: c in claims ==> c.delta >= 0) && (forall c :: c in claims' ==> c.delta >= 0)
    ensures ScoresCovered(Hops(g, EdgesOf(claims, g.now), State(start, {}), n).scores,
                          Hops(g', EdgesOf(claims', g.now), State(start', {}), n).scores)
  {
    var edges, edges' := EdgesOf(claims, g.now), EdgesOf(claims', g.now);
    EdgesOfClaims(claims, g.now);
    EdgesOfClaims(claims', g.now);
    NoNegativeEdgeNoBlacklist(g, edges, start, n);
    NoNegativeEdgeNoBlacklist(g', edges', start', n);
    PeacefulRounds(g, edges, start, n);
    PeacefulRounds(g', edges', start', n);
    ClaimsCoverEdges(g, g', claims, claims');
    RoundsMonotone(FactorOf(g), edges, History(g, edges, start, n), FactorOf(g'), edges',
                   History(g', edges', start', n), n);
  }

  lemma RoundMonotone(a: real, b: real)
    requires a <= b
    ensures Round(Clamp(a)) <= Round(Clamp(b))
  {
  }

  /** The same at the level of the returned rows: each row survives with a rounded score at least as high. */
  lemma BetterInputsNeverLowerRows(g: Setting, g': Setting, claims: seq<Claim>, claims': seq<Claim>,
                                   start: Scores, start': Scores, kinds: map<Str, EntityKind>,
                                   kinds': map<Str, EntityKind>, rows: seq<ScoreRow>, rows': seq<ScoreRow>)
    requires NonNegative(g) && NonNegative(g') && Antitone(g.decay) && WeightsImproved(g, g')
    requires NonNegativeScores(start) && NonNegativeScores(start') && ScoresCovered(start, start')
    requires ClaimsImproved(claims, claims', g.now)
    requires (forall c :: c in claims ==> c.delta >= 0) && (forall c :: c in claims' ==> c.delta >= 0)
    requires IsTable(rows, Hops(g, EdgesOf(claims, g.now), State(start, {}), MAX_HOPS), kinds)
    requires IsTable(rows', Hops(g', EdgesOf(claims', g.now), State(start', {}), MAX_HOPS), kinds')
    ensures forall row :: row in rows ==>
            exists row' :: row' in rows' && row'.principalId == row.principalId && row.score <= row'.score
  {
    BetterInputsNeverLower(g, g', claims, claims', start, start', MAX_HOPS);
    var before := Hops(g, EdgesOf(claims, g.now), State(start, {}), MAX_HOPS);
    var after := Hops(g', EdgesOf(claims', g.now), State(start', {}), MAX_HOPS);
    forall row | row in rows
      ensures exists row' :: row' in rows' && row'.principalId == row.principalId && row.score <= row'.score
    {
      var x := row.principalId;
      assert x in before.scores && x in after.scores;
      RoundMonotone(before.scores[x], after.scores[x]);
      assert x in Ids(rows');
      var i :| 0 <= i < |rows'| && Ids(rows')[i] == x;
      assert rows'[i] in rows' && rows'[i] == RowOf(after, kinds', x);
    }
  }
}
