/** Blacklisting: when a flagged principal ends at zero, and when it cuts off all its outgoing trust. */
module VeriRankBlacklist {
  import opened Text
  import opened VeriRank
  import opened VeriRankOrder
  import opened Walks
  import opened VeriRankWalks

  /** No issuer of a negative edge is itself the subject of a negative edge. */
  ghost predicate AccusersUnaccused(edges: seq<Edge>) {
    forall e, a :: e in edges && a in edges && e.score < 0 && a.score < 0 ==> a.subject != e.issuer
  }

  ghost predicate Unaccused(edges: seq<Edge>, x: Str) {
    forall a :: a in edges && a.score < 0 ==> a.subject != x
  }

  /** A principal nobody accuses never loses score. */
  lemma UnaccusedRises(g: Setting, edges: seq<Edge>, st: State, x: Str)
    requires Unaccused(edges, x) && x in st.scores
    ensures x in Step(g, edges, st).scores && st.scores[x] <= Step(g, edges, st).scores[x]
  {
    RelaxAllCovers(g, edges, st.scores, BlacklistOf(g, edges, st.scores));
  }

  /** A blacklisting by an unaccused issuer repeats in the next hop. */
  lemma BlacklistingPersists(g: Setting, edges: seq<Edge>, st: State, e: Edge)
    requires NonNegative(g) && Unaccused(edges, e.issuer) && Blacklists(g, st.scores, e)
    ensures Blacklists(g, Step(g, edges, st).scores, e)
  {
    UnaccusedRises(g, edges, st, e.issuer);
    MulMono(st.scores[e.issuer], Step(g, edges, st).scores[e.issuer], Weight(g, e.issuer));
  }

  /** e is a live accusation: it blacklists its subject in the next hop too. */
  ghost predicate Accuses(g: Setting, edges: seq<Edge>, scores: Scores, e: Edge, x: Str) {
    e in edges && e.subject == x && Blacklists(g, scores, e)
  }

  /** Nobody accuses those who accuse x. */
  ghost predicate AccusersOfUnaccused(edges: seq<Edge>, x: Str) {
    forall e :: e in edges && e.score < 0 && e.subject == x ==> Unaccused(edges, e.issuer)
  }

  /** A flagged principal whose accusers are unaccused is scored 0, after any number of hops. */
  lemma {:induction false} FlaggedMeansZero(g: Setting, edges: seq<Edge>, start: Scores, n: nat, x: Str)
    requires NonNegative(g) && AccusersOfUnaccused(edges, x)
    requires x in Hops(g, edges, State(start, {}), n).flagged
    ensures x in Hops(g, edges, State(start, {}), n).scores && Hops(g, edges, State(start, {}), n).scores[x] == 0.0
    ensures exists e :: Accuses(g, edges, Hops(g, edges, State(start, {}), n).scores, e, x)
    decreases n
  {
    var before := Hops(g, edges, State(start, {}), n - 1);
    var blacklist := BlacklistOf(g, edges, before.scores);
    if x in before.flagged {
      FlaggedMeansZero(g, edges, start, n - 1, x);
      var e :| Accuses(g, edges, before.scores, e, x);
      assert x in blacklist;
    }
    var e :| e in edges && Blacklists(g, before.scores, e) && e.subject == x;
    BlacklistingPersists(g, edges, before, e);
    assert Accuses(g, edges, Hops(g, edges, State(start, {}), n).scores, e, x);
  }

  /** If no accuser at all is accused, every flagged principal is scored 0. */
  lemma AllFlaggedZero(g: Setting, edges: seq<Edge>, start: Scores, n: nat)
    requires NonNegative(g) && AccusersUnaccused(edges)
    ensures forall x :: x in Hops(g, edges, State(start, {}), n).flagged ==>
              At(Hops(g, edges, State(start, {}), n).scores, x) == 0.0
  {
    forall x | x in Hops(g, edges, State(start, {}), n).flagged
      ensures At(Hops(g, edges, State(start, {}), n).scores, x) == 0.0
    {
      FlaggedMeansZero(g, edges, start, n, x);
    }
  }

  lemma {:induction false} HopsNonNegative(g: Setting, edges: seq<Edge>, start: Scores, n: nat)
    requires NonNegativeScores(start)
    ensures NonNegativeScores(Hops(g, edges, State(start, {}), n).scores)
  {
    if n > 0 {
      HopsNonNegative(g, edges, start, n - 1);
      var before := Hops(g, edges, State(start, {}), n - 1).scores;
      RelaxAllSource(g, edges, before, BlacklistOf(g, edges, before));
    }
  }

  /** Some edge of a scored, not blacklisted issuer offers x a positive value. */
  ghost predicate Lifted(g: Setting, edges: seq<Edge>, scores: Scores, blacklist: set<Str>, x: Str) {
    exists e :: e in edges && Carries(scores, blacklist, e) && e.subject == x &&
      Contribution(g, scores[e.issuer], e) > 0.0
  }

  /**
    What one hop decides, for every principal: after it x scores 0 if and only if this hop blacklists x, or x scored 0
    before and nothing lifts it. A flagged principal therefore regains a score exactly when its accusers lapse.
   */
  lemma ZeroAfterHopIff(g: Setting, edges: seq<Edge>, start: Scores, n: nat, x: Str)
    requires NonNegativeScores(start)
    ensures var before := Hops(g, edges, State(start, {}), n).scores;
            var blacklist := BlacklistOf(g, edges, before);
            At(Hops(g, edges, State(start, {}), n + 1).scores, x) == 0.0 <==>
            x in blacklist || (At(before, x) == 0.0 && !Lifted(g, edges, before, blacklist, x))
  {
    hide Contribution;
    HopsNonNegative(g, edges, start, n);
    var before := Hops(g, edges, State(start, {}), n).scores;
    var blacklist := BlacklistOf(g, edges, before);
    RelaxAllSource(g, edges, before, blacklist);
    RelaxAllCovers(g, edges, before, blacklist);
    var next := RelaxAll(g, edges, before, blacklist);
    assert x !in blacklist ==> At(Hops(g, edges, State(start, {}), n + 1).scores, x) == At(next, x);
    if x !in blacklist && At(before, x) == 0.0 {
      if Lifted(g, edges, before, blacklist, x) {
        var e :| e in edges && Carries(before, blacklist, e) && e.subject == x &&
          Contribution(g, before[e.issuer], e) > 0.0;
        assert Contribution(g, before[e.issuer], e) <= At(next, x);
      }
    }
  }

  /** cut is edges without the outgoing edges of x. */
  ghost predicate Cuts(edges: seq<Edge>, cut: seq<Edge>, x: Str) {
    forall e :: e in cut <==> e in edges && e.issuer != x
  }

  ghost predicate StrongAccusation(g: Setting, edges: seq<Edge>, start: Scores, a: Edge) {
    && a in edges && a.score < 0 && a.issuer in start
    && start[a.issuer] * Weight(g, a.issuer) >= BLACKLIST_ISSUER_THRESHOLD
    && Unaccused(edges, a.issuer)
  }

  lemma ZeroCannotBlacklist(g: Setting, scores: Scores, e: Edge)
    ensures At(scores, e.issuer) == 0.0 ==> !Blacklists(g, scores, e)
  {
  }

  lemma CutStep(g: Setting, edges: seq<Edge>, cut: seq<Edge>, st: State, x: Str)
    requires Cuts(edges, cut, x) && At(st.scores, x) == 0.0
    requires x in BlacklistOf(g, edges, st.scores)
    ensures Step(g, edges, st) == Step(g, cut, st) && At(Step(g, edges, st).scores, x) == 0.0
  {
    var blacklist := BlacklistOf(g, edges, st.scores);
    assert blacklist == BlacklistOf(g, cut, st.scores) by {
      forall e | e in edges && Blacklists(g, st.scores, e) ensures e in cut {
        ZeroCannotBlacklist(g, st.scores, e);
      }
    }
    RelaxAllSameCarriers(g, edges, cut, st.scores, blacklist);
  }

  /**
    Quarantine: a non-root negatively attested by an unaccused root whose weighted score is at the threshold
    influences nothing, so deleting all its outgoing edges leaves the whole state unchanged.
   */
  lemma {:induction false} Quarantine(g: Setting, edges: seq<Edge>, cut: seq<Edge>, start: Scores, a: Edge, n: nat)
    requires NonNegative(g) && StrongAccusation(g, edges, start, a)
    requires a.subject !in start && Cuts(edges, cut, a.subject)
    ensures Hops(g, edges, State(start, {}), n) == Hops(g, cut, State(start, {}), n)
    ensures Blacklists(g, Hops(g, edges, State(start, {}), n).scores, a)
    ensures At(Hops(g, edges, State(start, {}), n).scores, a.subject) == 0.0
  {
    hide Step;
    hide Cuts;
    if n > 0 {
      Quarantine(g, edges, cut, start, a, n - 1);
      var before := Hops(g, edges, State(start, {}), n - 1);
      assert a.subject in BlacklistOf(g, edges, before.scores);
      CutStep(g, edges, cut, before, a.subject);
      BlacklistingPersists(g, edges, before, a);
    }
  }

  // Two roots and one agent: [1] accuses [2], [2] accuses [3], and [1] also vouches for [3].
  const EXAMPLE_EDGES := [Edge([1], [2], -1, 0), Edge([2], [3], -1, 0), Edge([1], [3], 100, 0)]

  function ExampleScores(s: real, y: real): Scores {
    map[[1] := 100.0, [2] := s, [3] := y]
  }

  function ExampleSetting(): Setting {
    Setting(map[[1] := 1.0, [2] := 1.0], (age: int) => 1.0, 0)
  }

  lemma ExampleRelax(g: Setting, scores: Scores, blacklist: set<Str>)
    requires g == ExampleSetting() && [1] !in blacklist
    requires || (scores == map[[1] := 100.0, [2] := 100.0] && [2] in blacklist)
             || scores == ExampleScores(0.0, 0.0) || scores == ExampleScores(0.0, 80.0)
    ensures RelaxAll(g, EXAMPLE_EDGES, scores, blacklist) == scores[[3] := 80.0]
  {
    var edges := EXAMPLE_EDGES;
    assert edges[..2][..1] == edges[..1] && edges[..1][..0] == [] && edges[..3] == edges;
    assert RelaxAll(g, edges[..1][..0], scores, blacklist) == scores;
    var r1 := RelaxAll(g, edges[..1], scores, blacklist);
    assert r1 == Relax(g, scores, blacklist, scores, edges[0]);
    assert r1 == scores by { assert Contribution(g, 100.0, edges[0]) == -0.8; }
    var r2 := RelaxAll(g, edges[..2], scores, blacklist);
    assert r2 == Relax(g, scores, blacklist, r1, edges[1]);
    assert r2 == scores by { assert Contribution(g, 0.0, edges[1]) == 0.0; }
    assert RelaxAll(g, edges, scores, blacklist) == Relax(g, scores, blacklist, r2, edges[2]);
    assert Contribution(g, 100.0, edges[2]) == 80.0;
  }

  lemma ExampleFirstHop(g: Setting)
    requires g == ExampleSetting()
    ensures Step(g, EXAMPLE_EDGES, State(map[[1] := 100.0, [2] := 100.0], {})) ==
            State(ExampleScores(0.0, 0.0), {[2], [3]})
  {
    hide RelaxAll;
    hide Contribution;
    var scores: Scores := map[[1] := 100.0, [2] := 100.0];
    var edges := EXAMPLE_EDGES;
    var blacklist := BlacklistOf(g, edges, scores);
    assert edges[0] in edges && Blacklists(g, scores, edges[0]);
    assert edges[1] in edges && Blacklists(g, scores, edges[1]);
    assert blacklist == {[2], [3]};
    ExampleRelax(g, scores, blacklist);
    assert Override(scores[[3] := 80.0], blacklist) == ExampleScores(0.0, 0.0);
  }

  lemma ExampleLaterHop(g: Setting, y: real)
    requires g == ExampleSetting() && (y == 0.0 || y == 80.0)
    ensures Step(g, EXAMPLE_EDGES, State(ExampleScores(0.0, y), {[2], [3]})) ==
            State(ExampleScores(0.0, 80.0), {[2], [3]})
  {
    hide RelaxAll;
    hide Contribution;
    var scores := ExampleScores(0.0, y);
    var edges := EXAMPLE_EDGES;
    var blacklist := BlacklistOf(g, edges, scores);
    assert edges[0] in edges && Blacklists(g, scores, edges[0]);
    assert !Blacklists(g, scores, edges[1]);
    assert blacklist == {[2]};
    ExampleRelax(g, scores, blacklist);
    assert Override(scores[[3] := 80.0], blacklist) == ExampleScores(0.0, 80.0);
  }

  /** Without the condition a flagged row can keep a score: the accused root's own accusation does not last. */
  lemma FlaggedCanScore()
    ensures !AccusersOfUnaccused(EXAMPLE_EDGES, [3]) && !AccusersUnaccused(EXAMPLE_EDGES)
    ensures var st := Hops(ExampleSetting(), EXAMPLE_EDGES, State(map[[1] := 100.0, [2] := 100.0], {}), MAX_HOPS);
            [3] in st.flagged && [3] in st.scores && st.scores[[3]] == 80.0
  {
    var g, start := ExampleSetting(), State(map[[1] := 100.0, [2] := 100.0], {});
    assert EXAMPLE_EDGES[0] in EXAMPLE_EDGES && EXAMPLE_EDGES[1] in EXAMPLE_EDGES;
    ExampleFirstHop(g);
    ExampleLaterHop(g, 0.0);
    ExampleLaterHop(g, 80.0);
    assert Hops(g, EXAMPLE_EDGES, start, 1) == Step(g, EXAMPLE_EDGES, Hops(g, EXAMPLE_EDGES, start, 0));
    assert Hops(g, EXAMPLE_EDGES, start, 2) == Step(g, EXAMPLE_EDGES, Hops(g, EXAMPLE_EDGES, start, 1));
    assert Hops(g, EXAMPLE_EDGES, start, 3) == Step(g, EXAMPLE_EDGES, Hops(g, EXAMPLE_EDGES, start, 2));
  }
}
