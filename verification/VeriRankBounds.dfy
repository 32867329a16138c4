/**
  What a run keeps with blacklists included: rows are reachable within the hops run,
  scores shrink with distance from the roots, and only roots and their direct subjects can blacklist.
 */
module VeriRankBounds {
  import opened Text
  import opened VeriRank
  import opened VeriRankOrder
  import opened Walks
  import opened VeriRankWalks

  /** Weights and decay within [0,1] and attestation deltas at most 100, as the callers guarantee. */
  ghost predicate Bounded(g: Setting, edges: seq<Edge>) {
    && (forall id :: id in g.weights ==> 0.0 <= g.weights[id] <= 1.0)
    && (forall age: nat :: 0.0 <= g.decay(age) <= 1.0)
    && (forall e :: e in edges ==> e.score <= 100)
  }

  ghost predicate Within(m: Scores, bound: real) {
    forall x :: x in m ==> 0.0 <= m[x] <= bound
  }

  /** DISTANCE_DECAY to the power d. */
  function Decayed(d: nat): real {
    if d == 0 then 1.0 else DISTANCE_DECAY * Decayed(d - 1)
  }

  /** No walk from a root to x has fewer than d edges. */
  ghost predicate AtLeast(edges: seq<Edge>, start: Scores, x: Str, d: nat) {
    forall w :: IsWalk(edges, start, w) && End(w) == x ==> Length(w) >= d
  }

  lemma ScaleDown(a: real, u: real)
    requires a <= DISTANCE_DECAY && 0.0 <= u <= 1.0
    ensures a * u <= DISTANCE_DECAY
  {
    if a > 0.0 { MulMono(u, 1.0, a); } else { MulMono(a, 0.0, u); }
  }

  lemma FactorAtMost(g: Setting, edges: seq<Edge>, e: Edge)
    requires Bounded(g, edges) && e in edges
    ensures Factor(g, e) <= DISTANCE_DECAY
  {
    var s, d, w := e.score as real / 100.0, TimeDecay(g, e), Weight(g, e.issuer);
    var sd := s * DISTANCE_DECAY;
    assert s <= 1.0 && 0.0 <= d <= 1.0 && 0.0 <= w <= 1.0;
    assert sd <= 0.8;
    ScaleDown(sd, d);
    ScaleDown(sd * d, w);
  }

  /** Where a row of the next hop comes from. */
  lemma StepOrigin(g: Setting, edges: seq<Edge>, st: State, x: Str)
    requires x in Step(g, edges, st).scores
    ensures var v := Step(g, edges, st).scores[x];
            || (x in st.scores && v == st.scores[x])
            || exists e :: e in edges && e.issuer in st.scores && e.subject == x &&
                           (v == 0.0 || (v == Contribution(g, st.scores[e.issuer], e) && v > At(st.scores, x)))
  {
    var blacklist := BlacklistOf(g, edges, st.scores);
    RelaxAllSource(g, edges, st.scores, blacklist);
    var v := Step(g, edges, st).scores[x];
    if x in blacklist {
      var e :| e in edges && Blacklists(g, st.scores, e) && e.subject == x;
      assert v == 0.0;
    } else if !(x in st.scores && v == st.scores[x]) {
      var e :| e in edges && Offers(g, st.scores, blacklist, e, x, v);
      assert v == Contribution(g, st.scores[e.issuer], e);
    }
  }

  /** Every row, blacklisted or not, is reachable from a root within the hops run. */
  lemma {:induction false} RowReachable(g: Setting, edges: seq<Edge>, start: Scores, n: nat, x: Str) returns (w: Walk)
    requires x in Hops(g, edges, State(start, {}), n).scores
    ensures IsWalk(edges, start, w) && End(w) == x && Length(w) <= n
    decreases n
  {
    if n == 0 {
      w := From(x);
    } else {
      var before := Hops(g, edges, State(start, {}), n - 1);
      StepOrigin(g, edges, before, x);
      if x in before.scores {
        w := RowReachable(g, edges, start, n - 1, x);
      } else {
        var e :| e in edges && e.issuer in before.scores && e.subject == x;
        var p := RowReachable(g, edges, start, n - 1, e.issuer);
        w := Then(p, e);
      }
    }
  }

  lemma IssuerCloser(edges: seq<Edge>, start: Scores, e: Edge, d: nat)
    requires e in edges && d > 0 && AtLeast(edges, start, e.subject, d)
    ensures AtLeast(edges, start, e.issuer, d - 1)
  {
    forall w | IsWalk(edges, start, w) && End(w) == e.issuer ensures Length(w) >= d - 1 {
      assert IsWalk(edges, start, Then(w, e)) && End(Then(w, e)) == e.subject;
      assert Length(Then(w, e)) == Length(w) + 1;
    }
  }

  lemma ContributionShrinks(g: Setting, edges: seq<Edge>, e: Edge, v: real, bound: real)
    requires Bounded(g, edges) && e in edges && 0.0 <= v <= bound
    ensures Contribution(g, v, e) <= DISTANCE_DECAY * bound
  {
    ContributionIsFactor(g, v, e);
    FactorAtMost(g, edges, e);
    MulMono(Factor(g, e), DISTANCE_DECAY, v);
    MulMono(v, bound, DISTANCE_DECAY);
  }

  /** A principal at least d edges from every root scores at most 100 * 0.8^d, after any number of hops. */
  lemma {:induction false} ScoreShrinksWithDistance(g: Setting, edges: seq<Edge>, start: Scores, n: nat, x: Str, d: nat)
    requires Bounded(g, edges) && Within(start, 100.0)
    requires x in Hops(g, edges, State(start, {}), n).scores && AtLeast(edges, start, x, d)
    ensures 0.0 <= Hops(g, edges, State(start, {}), n).scores[x] <= 100.0 * Decayed(d)
    decreases n
  {
    hide Step;
    hide Contribution;
    DecayedBounds(d);
    if n == 0 {
      assert IsWalk(edges, start, From(x)) && End(From(x)) == x;
      assert Length(From(x)) == 0;
    } else {
      var before := Hops(g, edges, State(start, {}), n - 1);
      assert Hops(g, edges, State(start, {}), n) == Step(g, edges, before);
      StepOrigin(g, edges, before, x);
      if x in before.scores { ScoreShrinksWithDistance(g, edges, start, n - 1, x, d); }
      var v := Hops(g, edges, State(start, {}), n).scores[x];
      if !(x in before.scores && v == before.scores[x]) && v != 0.0 {
        var e :| e in edges && e.issuer in before.scores && e.subject == x
                 && v == Contribution(g, before.scores[e.issuer], e) && v > At(before.scores, x);
        var k := if d == 0 then 0 else d - 1;
        if d > 0 { IssuerCloser(edges, start, e, d); }
        ScoreShrinksWithDistance(g, edges, start, n - 1, e.issuer, k);
        ContributionShrinks(g, edges, e, before.scores[e.issuer], 100.0 * Decayed(k));
      }
    }
  }

  lemma {:induction false} DecayedBounds(d: nat)
    ensures 0.0 < Decayed(d) <= 1.0
  {
    if d > 0 { DecayedBounds(d - 1); }
  }

  /** So no score ever leaves [0,100] and the clamp before rounding changes nothing. */
  lemma ClampNeverFires(g: Setting, edges: seq<Edge>, start: Scores, n: nat, x: Str)
    requires Bounded(g, edges) && Within(start, 100.0)
    requires x in Hops(g, edges, State(start, {}), n).scores
    ensures Clamp(Hops(g, edges, State(start, {}), n).scores[x]) == Hops(g, edges, State(start, {}), n).scores[x]
  {
    ScoreShrinksWithDistance(g, edges, start, n, x, 0);
  }

  /** A shortest walk to the end of w. */
  lemma {:induction false} ShortestWalk(edges: seq<Edge>, start: Scores, w: Walk) returns (u: Walk)
    requires IsWalk(edges, start, w)
    ensures IsWalk(edges, start, u) && End(u) == End(w) && Length(u) <= Length(w)
    ensures AtLeast(edges, start, End(w), Length(u))
    decreases Length(w)
  {
    if v :| IsWalk(edges, start, v) && End(v) == End(w) && Length(v) < Length(w) {
      u := ShortestWalk(edges, start, v);
    } else {
      u := w;
    }
  }

  /** The distance bound: each row has a shortest walk of d <= n edges from a root and scores at most 100 * 0.8^d. */
  lemma DistanceBound(g: Setting, edges: seq<Edge>, start: Scores, n: nat, x: Str) returns (shortest: Walk)
    requires Bounded(g, edges) && Within(start, 100.0)
    requires x in Hops(g, edges, State(start, {}), n).scores
    ensures IsWalk(edges, start, shortest) && End(shortest) == x && Length(shortest) <= n
    ensures AtLeast(edges, start, x, Length(shortest))
    ensures 0.0 <= Hops(g, edges, State(start, {}), n).scores[x] <= 100.0 * Decayed(Length(shortest))
  {
    var w := RowReachable(g, edges, start, n, x);
    shortest := ShortestWalk(edges, start, w);
    ScoreShrinksWithDistance(g, edges, start, n, x, Length(shortest));
  }

  /** x is a root, or a root attests it. */
  ghost predicate NearRoot(edges: seq<Edge>, start: Scores, x: Str) {
    x in start || exists e :: e in edges && e.issuer in start && e.subject == x
  }

  lemma FarFromRoots(edges: seq<Edge>, start: Scores, x: Str)
    requires !NearRoot(edges, start, x)
    ensures AtLeast(edges, start, x, 2)
  {
    forall w | IsWalk(edges, start, w) && End(w) == x ensures Length(w) >= 2 {
      if w.Then? {
        assert IsWalk(edges, start, w.prefix);
        assert Length(w) == Length(w.prefix) + 1;
      }
    }
  }

  /** Only a root or a principal that a root attests ever blacklists anyone. */
  lemma OnlyNearRootBlacklists(g: Setting, edges: seq<Edge>, start: Scores, n: nat, e: Edge)
    requires Bounded(g, edges) && Within(start, 100.0)
    requires Blacklists(g, Hops(g, edges, State(start, {}), n).scores, e)
    ensures NearRoot(edges, start, e.issuer)
  {
    hide Hops;
    if !NearRoot(edges, start, e.issuer) {
      FarFromRoots(edges, start, e.issuer);
      ScoreShrinksWithDistance(g, edges, start, n, e.issuer, 2);
      assert Decayed(2) == 0.64 by { assert Decayed(1) == 0.8; }
      WeakCannotBlacklist(g, Hops(g, edges, State(start, {}), n).scores, e);
    }
  }

  lemma WeakCannotBlacklist(g: Setting, scores: Scores, e: Edge)
    requires e.issuer in scores && 0.0 <= scores[e.issuer] <= 64.0 && Weight(g, e.issuer) <= 1.0
    ensures !Blacklists(g, scores, e)
  {
    var v, w := scores[e.issuer], Weight(g, e.issuer);
    MulUnit(v, w);
    assert v * w <= 64.0;
    assert BLACKLIST_ISSUER_THRESHOLD == 80.0;
  }

  lemma MulUnit(v: real, u: real)
    requires v >= 0.0 && u <= 1.0
    ensures v * u <= v
  {
    var rest := 1.0 - u;
    assert v * rest >= 0.0;
    assert v * u + v * rest == v * (u + rest) == v;
  }
}
