/**
  Walks, and the abstract fact behind the best-walk theorem: rounds of max-times relaxation
  over a factor per edge compute the best walk value. The factors stay uninterpreted here.
 */
module Walks {
  import opened Text
  import opened VeriRank

  datatype Walk = From(root: Str) | Then(prefix: Walk, edge: Edge)

  function End(w: Walk): Str {
    match w
    case From(r) => r
    case Then(_, e) => e.subject
  }

  function Length(w: Walk): nat {
    match w
    case From(_) => 0
    case Then(p, _) => Length(p) + 1
  }

  /** w starts at a scored root and follows edges of the graph. */
  predicate IsWalk(edges: seq<Edge>, start: Scores, w: Walk) {
    match w
    case From(r) => r in start
    case Then(p, e) => e in edges && e.issuer == End(p) && IsWalk(edges, start, p)
  }

  /** No negative attestation on the walk. */
  predicate Endorsing(w: Walk) {
    match w
    case From(_) => true
    case Then(p, e) => e.score >= 0 && Endorsing(p)
  }

  predicate IsEndorsingWalk(edges: seq<Edge>, start: Scores, w: Walk, x: Str, n: nat) {
    IsWalk(edges, start, w) && Endorsing(w) && End(w) == x && Length(w) <= n
  }

  /** The root's score times the factor of every edge. */
  function Value(factor: Edge -> real, start: Scores, w: Walk): real {
    match w
    case From(r) => At(start, r)
    case Then(p, e) => Value(factor, start, p) * factor(e)
  }

  ghost predicate NonNegativeScores(m: Scores) {
    forall x :: x in m ==> m[x] >= 0.0
  }

  ghost predicate NonNegativeFactors(factor: Edge -> real) {
    forall e: Edge :: e.score >= 0 ==> factor(e) >= 0.0
  }

  /** e takes after[x] from its issuer's score in before. */
  predicate Sources(factor: Edge -> real, before: Scores, after: Scores, x: Str, e: Edge) {
    && e.score >= 0 && e.subject == x && e.issuer in before && x in after
    && after[x] == before[e.issuer] * factor(e) > 0.0
  }

  /** after is one round of relaxation of before: no score drops, every offer is met, and every change has a source. */
  ghost predicate Relaxes(factor: Edge -> real, edges: seq<Edge>, before: Scores, after: Scores) {
    && (forall x :: x in before ==> x in after && before[x] <= after[x])
    && (forall e :: e in edges && e.score >= 0 && e.issuer in before ==>
        before[e.issuer] * factor(e) <= At(after, e.subject))
    && (forall x :: x in after && !(x in before && after[x] == before[x]) ==>
          exists e :: e in edges && Sources(factor, before, after, x, e))
  }

  ghost predicate Rounds(factor: Edge -> real, edges: seq<Edge>, hist: seq<Scores>) {
    && hist != []
    && NonNegativeScores(hist[0]) && NonNegativeFactors(factor)
    && forall i :: 0 < i < |hist| ==> RoundAt(factor, edges, hist, i)
  }

  ghost predicate RoundAt(factor: Edge -> real, edges: seq<Edge>, hist: seq<Scores>, i: nat)
    requires 0 < i < |hist|
  {
    Relaxes(factor, edges, hist[i - 1], hist[i])
  }

  lemma MulMono(a: real, b: real, f: real)
    requires a <= b && f >= 0.0
    ensures a * f <= b * f
  {
  }

  lemma {:induction false} RoundsNonNegative(factor: Edge -> real, edges: seq<Edge>, hist: seq<Scores>, n: nat)
    requires Rounds(factor, edges, hist) && n < |hist|
    ensures NonNegativeScores(hist[n])
    ensures forall x :: x in hist[0] ==> x in hist[n]
    ensures forall x :: x in hist[n] && x !in hist[0] ==> hist[n][x] > 0.0
  {
    if n > 0 {
      RoundsNonNegative(factor, edges, hist, n - 1);
      assert RoundAt(factor, edges, hist, n);
    }
  }

  /** Every score is the value of some endorsing walk within the rounds run. */
  lemma {:induction false} ScoreIsWalk(factor: Edge -> real, edges: seq<Edge>, hist: seq<Scores>, n: nat, x: Str)
    returns (w: Walk)
    requires Rounds(factor, edges, hist) && n < |hist| && x in hist[n]
    ensures IsEndorsingWalk(edges, hist[0], w, x, n)
    ensures Value(factor, hist[0], w) == hist[n][x]
    decreases n
  {
    if n == 0 {
      w := From(x);
    } else {
      assert RoundAt(factor, edges, hist, n);
      if x in hist[n - 1] && hist[n][x] == hist[n - 1][x] {
        w := ScoreIsWalk(factor, edges, hist, n - 1, x);
      } else {
        var e :| e in edges && Sources(factor, hist[n - 1], hist[n], x, e);
        var p := ScoreIsWalk(factor, edges, hist, n - 1, e.issuer);
        w := Then(p, e);
      }
    }
  }

  /** No endorsing walk within the rounds run is worth more than its end's score. */
  lemma {:induction false} WalkBounded(factor: Edge -> real, edges: seq<Edge>, hist: seq<Scores>, n: nat, w: Walk)
    requires Rounds(factor, edges, hist) && n < |hist|
    requires IsEndorsingWalk(edges, hist[0], w, End(w), n)
    ensures Value(factor, hist[0], w) <= At(hist[n], End(w))
    decreases n
  {
    if n > 0 {
      assert RoundAt(factor, edges, hist, n);
      match w
      case From(r) =>
        WalkBounded(factor, edges, hist, n - 1, w);
        RoundsNonNegative(factor, edges, hist, n - 1);
      case Then(p, e) =>
        WalkBounded(factor, edges, hist, n - 1, p);
        RoundsNonNegative(factor, edges, hist, n);
        MulMono(Value(factor, hist[0], p), At(hist[n - 1], e.issuer), factor(e));
    }
  }

  lemma ExtendRounds(factor: Edge -> real, edges: seq<Edge>, hist: seq<Scores>, after: Scores)
    requires Rounds(factor, edges, hist) && Relaxes(factor, edges, hist[|hist| - 1], after)
    ensures Rounds(factor, edges, hist + [after])
  {
    var longer := hist + [after];
    forall i | 0 < i < |longer| ensures RoundAt(factor, edges, longer, i) {
      if i < |hist| { assert RoundAt(factor, edges, hist, i); }
    }
  }

  /** Some endorsing walk of at most n edges to x has weighted value at least the threshold. */
  ghost predicate WalkReaches(factor: Edge -> real, edges: seq<Edge>, start: Scores, n: nat, x: Str, weight: real,
                              threshold: real) {
    exists w :: IsEndorsingWalk(edges, start, w, x, n) && Value(factor, start, w) * weight >= threshold
  }

  lemma WalkReachesLonger(factor: Edge -> real, edges: seq<Edge>, start: Scores, n: nat, x: Str, weight: real,
                          threshold: real)
    requires n > 0 && WalkReaches(factor, edges, start, n - 1, x, weight, threshold)
    ensures WalkReaches(factor, edges, start, n, x, weight, threshold)
  {
    var w :| IsEndorsingWalk(edges, start, w, x, n - 1) && Value(factor, start, w) * weight >= threshold;
    assert IsEndorsingWalk(edges, start, w, x, n);
  }

  /** A weighted score reaches a positive threshold exactly when some walk does. */
  lemma ThresholdIffWalk(factor: Edge -> real, edges: seq<Edge>, hist: seq<Scores>, n: nat, x: Str, weight: real,
                         threshold: real)
    requires Rounds(factor, edges, hist) && n < |hist| && weight >= 0.0 && threshold > 0.0
    ensures (x in hist[n] && hist[n][x] * weight >= threshold) <==>
            WalkReaches(factor, edges, hist[0], n, x, weight, threshold)
  {
    if x in hist[n] && hist[n][x] * weight >= threshold {
      var w := ScoreIsWalk(factor, edges, hist, n, x);
      assert IsEndorsingWalk(edges, hist[0], w, x, n);
    }
    if w :| IsEndorsingWalk(edges, hist[0], w, x, n) && Value(factor, hist[0], w) * weight >= threshold {
      WalkBounded(factor, edges, hist, n, w);
      MulMono(Value(factor, hist[0], w), At(hist[n], x), weight);
    }
  }

  /** w is a best endorsing walk of at most n edges to x. */
  ghost predicate BestWalk(factor: Edge -> real, edges: seq<Edge>, start: Scores, n: nat, x: Str, w: Walk) {
    && IsEndorsingWalk(edges, start, w, x, n)
    && forall u :: IsEndorsingWalk(edges, start, u, x, n) ==> Value(factor, start, u) <= Value(factor, start, w)
  }

  lemma RoundsFindBestWalk(factor: Edge -> real, edges: seq<Edge>, hist: seq<Scores>, n: nat, x: Str)
    requires Rounds(factor, edges, hist) && n < |hist|
    ensures x in hist[n] <==>
            x in hist[0] || exists w :: IsEndorsingWalk(edges, hist[0], w, x, n) && Value(factor, hist[0], w) > 0.0
    ensures x in hist[n] ==>
              exists w :: BestWalk(factor, edges, hist[0], n, x, w) && Value(factor, hist[0], w) == hist[n][x]
  {
    RoundsNonNegative(factor, edges, hist, n);
    forall w | IsEndorsingWalk(edges, hist[0], w, x, n) ensures Value(factor, hist[0], w) <= At(hist[n], x) {
      WalkBounded(factor, edges, hist, n, w);
    }
    if x in hist[n] {
      var w := ScoreIsWalk(factor, edges, hist, n, x);
      assert BestWalk(factor, edges, hist[0], n, x, w);
    }
  }
}

/**
  VeriRank against its specification. While no blacklist fires, a principal's score is the value of the
  best walk from a root, within the hops run.
 */
module VeriRankWalks {
  import opened Text
  import opened VeriRank
  import opened VeriRankOrder
  import opened Walks

  /** What an edge multiplies its issuer's score by. */
  function Factor(g: Setting, e: Edge): real {
    (e.score as real / 100.0) * DISTANCE_DECAY * TimeDecay(g, e) * Weight(g, e.issuer)
  }

  function FactorOf(g: Setting): Edge -> real {
    (e: Edge) => Factor(g, e)
  }

  ghost predicate NonNegative(g: Setting) {
    && (forall id :: id in g.weights ==> g.weights[id] >= 0.0)
    && (forall age: nat :: g.decay(age) >= 0.0)
  }

  lemma ContributionIsFactor(g: Setting, v: real, e: Edge)
    ensures Contribution(g, v, e) == v * Factor(g, e)
  {
    var s, d, w := e.score as real / 100.0, TimeDecay(g, e), Weight(g, e.issuer);
    calc {
      v * s * DISTANCE_DECAY * d * w;
      (v * s * DISTANCE_DECAY) * (d * w);
      (v * (s * DISTANCE_DECAY)) * (d * w);
      v * ((s * DISTANCE_DECAY) * (d * w));
      v * (s * DISTANCE_DECAY * d * w);
    }
  }

  lemma FactorSign(g: Setting, e: Edge)
    requires NonNegative(g)
    ensures e.score >= 0 ==> Factor(g, e) >= 0.0
    ensures e.score < 0 ==> Factor(g, e) <= 0.0
  {
    var s, d, w := e.score as real / 100.0, TimeDecay(g, e), Weight(g, e.issuer);
    var sd := s * DISTANCE_DECAY;
    assert d >= 0.0 && w >= 0.0;
    if e.score >= 0 {
      MulMono(0.0, sd, d);
      MulMono(0.0, sd * d, w);
    } else {
      MulMono(sd, 0.0, d);
      MulMono(sd * d, 0.0, w);
    }
  }

  lemma FactorsNonNegative(g: Setting)
    requires NonNegative(g)
    ensures NonNegativeFactors(FactorOf(g))
  {
    forall e: Edge | e.score >= 0 ensures FactorOf(g)(e) >= 0.0 { FactorSign(g, e); }
  }

  lemma PositiveOfferEndorses(g: Setting, v: real, e: Edge)
    requires NonNegative(g) && v >= 0.0
    ensures Contribution(g, v, e) > 0.0 ==> e.score >= 0
  {
    ContributionIsFactor(g, v, e);
    FactorSign(g, e);
    var f := Factor(g, e);
    if f <= 0.0 { MulMono(f, 0.0, v); }
  }

  lemma {:induction false} FlaggedGrows(g: Setting, edges: seq<Edge>, st: State, m: nat, n: nat)
    requires m <= n
    ensures Hops(g, edges, st, m).flagged <= Hops(g, edges, st, n).flagged
    decreases n
  {
    if m < n { FlaggedGrows(g, edges, st, m, n - 1); }
  }

  /** A hop that blacklists nobody is a plain relaxation. */
  lemma PeacefulStep(g: Setting, edges: seq<Edge>, st: State)
    requires Step(g, edges, st).flagged == {}
    ensures BlacklistOf(g, edges, st.scores) == {}
    ensures Step(g, edges, st).scores == RelaxAll(g, edges, st.scores, {})
  {
    var blacklist := BlacklistOf(g, edges, st.scores);
    assert blacklist <= Step(g, edges, st).flagged;
    assert blacklist == {};
    var next := RelaxAll(g, edges, st.scores, {});
    assert next.Keys + {} == next.Keys;
    assert Override(next, {}) == next;
  }

  lemma PeacefulStepRelaxes(g: Setting, edges: seq<Edge>, st: State)
    requires NonNegative(g) && NonNegativeScores(st.scores)
    requires Step(g, edges, st).flagged == {}
    ensures Relaxes(FactorOf(g), edges, st.scores, Step(g, edges, st).scores)
  {
    hide Contribution;
    hide Factor;
    hide Step;
    hide RelaxAll;
    PeacefulStep(g, edges, st);
    RelaxAllCovers(g, edges, st.scores, {});
    RelaxAllSource(g, edges, st.scores, {});
    var after := Step(g, edges, st).scores;
    forall e | e in edges && e.score >= 0 && e.issuer in st.scores
      ensures st.scores[e.issuer] * FactorOf(g)(e) <= At(after, e.subject)
    {
      ContributionIsFactor(g, st.scores[e.issuer], e);
    }
    forall x | x in after && !(x in st.scores && after[x] == st.scores[x])
      ensures exists e :: e in edges && Sources(FactorOf(g), st.scores, after, x, e)
    {
      var e :| e in edges && Offers(g, st.scores, {}, e, x, after[x]);
      ContributionIsFactor(g, st.scores[e.issuer], e);
      PositiveOfferEndorses(g, st.scores[e.issuer], e);
      assert Sources(FactorOf(g), st.scores, after, x, e);
    }
  }

  /** The scores after 0, 1, .., n hops. */
  function History(g: Setting, edges: seq<Edge>, start: Scores, n: nat): (hist: seq<Scores>)
    ensures |hist| == n + 1
    ensures hist[0] == start && hist[n] == Hops(g, edges, State(start, {}), n).scores
  {
    if n == 0 then [start] else History(g, edges, start, n - 1) + [Hops(g, edges, State(start, {}), n).scores]
  }

  lemma {:induction false} PeacefulRounds(g: Setting, edges: seq<Edge>, start: Scores, n: nat)
    requires NonNegative(g) && NonNegativeScores(start)
    requires Hops(g, edges, State(start, {}), n).flagged == {}
    ensures Rounds(FactorOf(g), edges, History(g, edges, start, n))
    decreases n
  {
    FactorsNonNegative(g);
    if n > 0 {
      var prev := History(g, edges, start, n - 1);
      FlaggedGrows(g, edges, State(start, {}), n - 1, n);
      PeacefulRounds(g, edges, start, n - 1);
      RoundsNonNegative(FactorOf(g), edges, prev, n - 1);
      var before := Hops(g, edges, State(start, {}), n - 1);
      PeacefulStepRelaxes(g, edges, before);
      ExtendRounds(FactorOf(g), edges, prev, Step(g, edges, before).scores);
    }
  }

  /**
    The best-walk theorem. If no blacklist fires, then after n hops a principal is scored exactly when it is
    a root or some walk of at most n endorsing edges to it has positive value, and its score is the best walk's value.
   */
  lemma BestWalkTheorem(g: Setting, edges: seq<Edge>, start: Scores, n: nat, x: Str)
    requires NonNegative(g) && NonNegativeScores(start)
    requires Hops(g, edges, State(start, {}), n).flagged == {}
    ensures var scores := Hops(g, edges, State(start, {}), n).scores;
            && (x in scores <==>
                x in start || exists w :: IsEndorsingWalk(edges, start, w, x, n) && Value(FactorOf(g), start, w) > 0.0)
            && (x in scores ==>
                exists w :: BestWalk(FactorOf(g), edges, start, n, x, w) && Value(FactorOf(g), start, w) == scores[x])
  {
    PeacefulRounds(g, edges, start, n);
    RoundsFindBestWalk(FactorOf(g), edges, History(g, edges, start, n), n, x);
  }

  /** With no negative edge no blacklist fires, so the best-walk theorem applies to all four hops. */
  lemma {:induction false} NoNegativeEdgeNoBlacklist(g: Setting, edges: seq<Edge>, start: Scores, n: nat)
    requires forall e :: e in edges ==> e.score >= 0
    ensures Hops(g, edges, State(start, {}), n).flagged == {}
  {
    if n > 0 { NoNegativeEdgeNoBlacklist(g, edges, start, n - 1); }
  }

  /** Some endorsing walk of at most n edges lifts e's issuer to the blacklisting threshold. */
  ghost predicate Reaches(g: Setting, edges: seq<Edge>, start: Scores, n: nat, e: Edge) {
    WalkReaches(FactorOf(g), edges, start, n, e.issuer, Weight(g, e.issuer), BLACKLIST_ISSUER_THRESHOLD)
  }

  lemma BlacklistsIffReaches(g: Setting, edges: seq<Edge>, start: Scores, n: nat, e: Edge)
    requires NonNegative(g) && NonNegativeScores(start)
    requires Hops(g, edges, State(start, {}), n).flagged == {} && e.score < 0
    ensures Blacklists(g, Hops(g, edges, State(start, {}), n).scores, e) <==> Reaches(g, edges, start, n, e)
  {
    PeacefulRounds(g, edges, start, n);
    ThresholdIffWalk(FactorOf(g), edges, History(g, edges, start, n), n, e.issuer, Weight(g, e.issuer),
                     BLACKLIST_ISSUER_THRESHOLD);
  }

  /**
    Exactly when n + 1 hops blacklist nobody: no walk of at most n edges lifts a negative edge's issuer to the
    threshold.
   */
  lemma {:induction false} PeacefulIff(g: Setting, edges: seq<Edge>, start: Scores, n: nat)
    requires NonNegative(g) && NonNegativeScores(start)
    ensures Hops(g, edges, State(start, {}), n + 1).flagged == {} <==>
            forall e :: e in edges && e.score < 0 ==> !Reaches(g, edges, start, n, e)
  {
    hide Reaches;
    var before := Hops(g, edges, State(start, {}), n);
    if before.flagged == {} {
      forall e | e in edges && e.score < 0
        ensures e.subject in BlacklistOf(g, edges, before.scores) || !Reaches(g, edges, start, n, e)
      {
        BlacklistsIffReaches(g, edges, start, n, e);
      }
      forall x | x in BlacklistOf(g, edges, before.scores)
        ensures exists e :: e in edges && e.score < 0 && Reaches(g, edges, start, n, e)
      {
        var e :| e in edges && Blacklists(g, before.scores, e) && e.subject == x;
        BlacklistsIffReaches(g, edges, start, n, e);
      }
    } else {
      PeacefulIff(g, edges, start, n - 1);
      var e :| e in edges && e.score < 0 && Reaches(g, edges, start, n - 1, e);
      ReachesLonger(g, edges, start, n, e);
    }
  }

  lemma ReachesLonger(g: Setting, edges: seq<Edge>, start: Scores, n: nat, e: Edge)
    requires n > 0 && Reaches(g, edges, start, n - 1, e)
    ensures Reaches(g, edges, start, n, e)
  {
    WalkReachesLonger(FactorOf(g), edges, start, n, e.issuer, Weight(g, e.issuer), BLACKLIST_ISSUER_THRESHOLD);
  }
}
