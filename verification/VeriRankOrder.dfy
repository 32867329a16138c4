/**
  What a hop computes, said without an edge order: every score is the best contribution offered.
  Hence the score table depends on the set of edges alone, not on their order or multiplicity.
 */
module VeriRankOrder {
  import opened Text
  import opened VeriRank

  /** e offers x the value v: its issuer is scored and not blacklisted in this hop. */
  predicate Offers(g: Setting, scores: Scores, blacklist: set<Str>, e: Edge, x: Str, v: real) {
    Carries(scores, blacklist, e) && e.subject == x && v == Contribution(g, scores[e.issuer], e)
  }

  /** No score drops, and every carrying edge's contribution is met. */
  lemma {:induction false} RelaxAllCovers(g: Setting, edges: seq<Edge>, scores: Scores, blacklist: set<Str>)
    ensures forall x :: x in scores ==> x in RelaxAll(g, edges, scores, blacklist)
    ensures forall x :: x in scores ==> scores[x] <= RelaxAll(g, edges, scores, blacklist)[x]
    ensures forall e :: e in edges && Carries(scores, blacklist, e) ==>
              Contribution(g, scores[e.issuer], e) <= At(RelaxAll(g, edges, scores, blacklist), e.subject)
  {
    if edges != [] {
      var last := |edges| - 1;
      RelaxAllCovers(g, edges[..last], scores, blacklist);
      assert edges == edges[..last] + [edges[last]];
      RelaxAllSource(g, edges[..last], scores, blacklist);
    }
  }

  /** Every score after relaxing is an old score or a contribution strictly above the old one. */
  lemma {:induction false} RelaxAllSource(g: Setting, edges: seq<Edge>, scores: Scores, blacklist: set<Str>)
    ensures forall x :: x in RelaxAll(g, edges, scores, blacklist) ==>
              var v := RelaxAll(g, edges, scores, blacklist)[x];
              || (x in scores && v == scores[x])
              || (v > At(scores, x) && exists e :: e in edges && Offers(g, scores, blacklist, e, x, v))
  {
    if edges != [] {
      var last := |edges| - 1;
      RelaxAllSource(g, edges[..last], scores, blacklist);
      var before, after := RelaxAll(g, edges[..last], scores, blacklist), RelaxAll(g, edges, scores, blacklist);
      forall x | x in after
        ensures || (x in scores && after[x] == scores[x])
                || (after[x] > At(scores, x) && exists e :: e in edges && Offers(g, scores, blacklist, e, x, after[x]))
      {
        if x in before && after[x] == before[x] {
          if !(x in scores && after[x] == scores[x]) {
            var e :| e in edges[..last] && Offers(g, scores, blacklist, e, x, before[x]);
            assert e in edges;
          }
        } else {
          assert edges[last] in edges && Offers(g, scores, blacklist, edges[last], x, after[x]);
          RelaxAllCovers(g, edges[..last], scores, blacklist);
        }
      }
    }
  }

  lemma HopBlacklist(g: Setting, edges: seq<Edge>, st: State, blacklist: set<Str>)
    requires blacklist == BlacklistOf(g, edges, st.scores)
    ensures Step(g, edges, st).flagged == st.flagged + blacklist
    ensures forall x :: x in blacklist <==>
            exists e :: e in edges && e.subject == x && e.score < 0 && e.issuer in st.scores &&
                        st.scores[e.issuer] * (if e.issuer in g.weights then g.weights[e.issuer] else 0.0) >= 80.0
  {
    hide RelaxAll;
    forall x | x in blacklist
      ensures exists e :: e in edges && e.subject == x && e.score < 0 && e.issuer in st.scores &&
                          st.scores[e.issuer] * (if e.issuer in g.weights then g.weights[e.issuer] else 0.0) >= 80.0
    {
      var e :| e in edges && Blacklists(g, st.scores, e) && e.subject == x;
    }
    forall e | e in edges && e.score < 0 && e.issuer in st.scores &&
               st.scores[e.issuer] * (if e.issuer in g.weights then g.weights[e.issuer] else 0.0) >= 80.0
      ensures e.subject in blacklist
    {
      assert Blacklists(g, st.scores, e);
    }
  }

  lemma ContributionIs(g: Setting, v: real, e: Edge)
    ensures Contribution(g, v, e) ==
            v * (e.score as real / 100.0) * 0.8 * g.decay(if g.now < e.timestamp then 0 else g.now - e.timestamp)
              * (if e.issuer in g.weights then g.weights[e.issuer] else 0.0)
  {}

  lemma OfferMet(g: Setting, edges: seq<Edge>, st: State, blacklist: set<Str>, e: Edge)
    requires blacklist == BlacklistOf(g, edges, st.scores)
    requires e in edges && e.issuer in st.scores && e.issuer !in blacklist && e.subject !in blacklist
    ensures Contribution(g, st.scores[e.issuer], e) <= At(Step(g, edges, st).scores, e.subject)
  {
    hide RelaxAll;
    hide Contribution;
    hide BlacklistOf;
    RelaxAllCovers(g, edges, st.scores, blacklist);
    assert Step(g, edges, st).scores == Override(RelaxAll(g, edges, st.scores, blacklist), blacklist);
    assert Carries(st.scores, blacklist, e);
  }

  lemma HopEdge(g: Setting, edges: seq<Edge>, st: State, blacklist: set<Str>, e: Edge)
    requires blacklist == BlacklistOf(g, edges, st.scores)
    requires e in edges && e.issuer in st.scores && e.issuer !in blacklist && e.subject !in blacklist
    ensures st.scores[e.issuer] * (e.score as real / 100.0) * 0.8
              * g.decay(if g.now < e.timestamp then 0 else g.now - e.timestamp)
              * (if e.issuer in g.weights then g.weights[e.issuer] else 0.0)
            <= At(Step(g, edges, st).scores, e.subject)
  {
    hide RelaxAll;
    hide Contribution;
    hide BlacklistOf;
    ContributionIs(g, st.scores[e.issuer], e);
    var c := Contribution(g, st.scores[e.issuer], e);
    assert c <= At(Step(g, edges, st).scores, e.subject) by {
      OfferMet(g, edges, st, blacklist, e);
    }
  }

  lemma HopPrincipal(g: Setting, edges: seq<Edge>, st: State, blacklist: set<Str>, x: Str)
    requires blacklist == BlacklistOf(g, edges, st.scores)
    ensures x in blacklist ==> x in Step(g, edges, st).scores && Step(g, edges, st).scores[x] == 0.0
    ensures x in st.scores && x !in blacklist ==>
            x in Step(g, edges, st).scores && st.scores[x] <= Step(g, edges, st).scores[x]
    ensures x in Step(g, edges, st).scores && x !in blacklist ==>
            var v := Step(g, edges, st).scores[x];
            || (x in st.scores && v == st.scores[x])
            || (v > At(st.scores, x) &&
                exists e :: e in edges && e.subject == x && e.issuer in st.scores && e.issuer !in blacklist &&
                            v == st.scores[e.issuer] * (e.score as real / 100.0) * 0.8
                                 * g.decay(if g.now < e.timestamp then 0 else g.now - e.timestamp)
                                 * (if e.issuer in g.weights then g.weights[e.issuer] else 0.0))
  {
    RelaxAllCovers(g, edges, st.scores, blacklist);
    RelaxAllSource(g, edges, st.scores, blacklist);
    hide RelaxAll;
    hide Contribution;
    hide BlacklistOf;
    var relaxed, next := RelaxAll(g, edges, st.scores, blacklist), Step(g, edges, st).scores;
    assert next == Override(relaxed, blacklist);
    if x in next && x !in blacklist && !(x in st.scores && next[x] == st.scores[x]) {
      var e :| e in edges && Offers(g, st.scores, blacklist, e, x, next[x]);
      ContributionIs(g, st.scores[e.issuer], e);
    }
  }

  /**
    One hop in full. It blacklists the subjects of negative edges whose issuer scores 80 or more after its trust weight,
    an issuer without a principal row weighing 0. Those score 0. Any other principal keeps its score or takes the best
    value that an edge from a scored issuer, itself not blacklisted in this hop, offers it: the issuer's score times the
    delta in percent, times 0.8, times the decay at the edge's age, times the issuer's weight.
   */
  lemma HopMeaning(g: Setting, edges: seq<Edge>, st: State) returns (blacklist: set<Str>)
    ensures forall x :: x in blacklist <==>
            exists e :: e in edges && e.subject == x && e.score < 0 && e.issuer in st.scores &&
                        st.scores[e.issuer] * (if e.issuer in g.weights then g.weights[e.issuer] else 0.0) >= 80.0
    ensures Step(g, edges, st).flagged == st.flagged + blacklist
    ensures forall x :: x in blacklist ==> x in Step(g, edges, st).scores && Step(g, edges, st).scores[x] == 0.0
    ensures forall x :: x in st.scores && x !in blacklist ==>
            x in Step(g, edges, st).scores && st.scores[x] <= Step(g, edges, st).scores[x]
    ensures forall e :: e in edges && e.issuer in st.scores && e.issuer !in blacklist && e.subject !in blacklist ==>
            st.scores[e.issuer] * (e.score as real / 100.0) * 0.8
              * g.decay(if g.now < e.timestamp then 0 else g.now - e.timestamp)
              * (if e.issuer in g.weights then g.weights[e.issuer] else 0.0)
            <= At(Step(g, edges, st).scores, e.subject)
    ensures forall x :: x in Step(g, edges, st).scores && x !in blacklist ==>
            var v := Step(g, edges, st).scores[x];
            || (x in st.scores && v == st.scores[x])
            || (v > At(st.scores, x) &&
                exists e :: e in edges && e.subject == x && e.issuer in st.scores && e.issuer !in blacklist &&
                            v == st.scores[e.issuer] * (e.score as real / 100.0) * 0.8
                                 * g.decay(if g.now < e.timestamp then 0 else g.now - e.timestamp)
                                 * (if e.issuer in g.weights then g.weights[e.issuer] else 0.0))
  {
    hide *;
    blacklist := BlacklistOf(g, edges, st.scores);
    HopBlacklist(g, edges, st, blacklist);
    forall x | x in blacklist || x in st.scores || x in Step(g, edges, st).scores {
      HopPrincipal(g, edges, st, blacklist, x);
    }
    forall e | e in edges && e.issuer in st.scores && e.issuer !in blacklist && e.subject !in blacklist {
      HopEdge(g, edges, st, blacklist, e);
    }
  }

  /**
    What a row of the table says: the nearest whole number to the score, halves up, with scores outside 0 to 100 cut
    off; whether some hop blacklisted the principal; its kind where it has a principal row. Rows stand in id order.
   */
  lemma RowMeaning(rows: seq<ScoreRow>, st: State, kinds: map<Str, EntityKind>, i: nat)
    requires IsTable(rows, st, kinds) && i < |rows|
    ensures var row, x := rows[i], rows[i].principalId;
            && x in st.scores
            && (0.0 <= st.scores[x] <= 100.0 ==>
                row.score as real - 0.5 <= st.scores[x] < row.score as real + 0.5)
            && (st.scores[x] < 0.0 ==> row.score == 0)
            && (st.scores[x] > 100.0 ==> row.score == 100)
            && (row.blacklisted <==> x in st.flagged)
            && (row.reason == Blacklisted <==> x in st.flagged)
            && (row.kind.Some? <==> x in kinds) && (x in kinds ==> row.kind == Some(kinds[x]))
    ensures forall j :: i < j < |rows| ==> Precedes(rows[i].principalId, rows[j].principalId)
  {
    forall j | i < j < |rows| ensures Precedes(rows[i].principalId, rows[j].principalId) {
      assert Less(Ids(rows)[i], Ids(rows)[j]);
      LessIff(rows[i].principalId, rows[j].principalId);
    }
  }

  ghost predicate SameEdges(a: seq<Edge>, b: seq<Edge>) {
    forall e :: e in a <==> e in b
  }

  /** Relaxation reaches no further from a than from b when every carrying edge of a is in b. */
  lemma RelaxAllBelow(g: Setting, a: seq<Edge>, b: seq<Edge>, scores: Scores, blacklist: set<Str>, x: Str)
    requires forall e :: e in a && Carries(scores, blacklist, e) ==> e in b
    requires x in RelaxAll(g, a, scores, blacklist)
    ensures x in RelaxAll(g, b, scores, blacklist)
    ensures RelaxAll(g, a, scores, blacklist)[x] <= RelaxAll(g, b, scores, blacklist)[x]
  {
    RelaxAllSource(g, a, scores, blacklist);
    RelaxAllCovers(g, b, scores, blacklist);
    var v := RelaxAll(g, a, scores, blacklist)[x];
    if !(x in scores && v == scores[x]) {
      var e :| e in a && Offers(g, scores, blacklist, e, x, v);
      assert e in b && v <= At(RelaxAll(g, b, scores, blacklist), x);
      if x !in scores { assert v > 0.0; }
    }
  }

  /** Only the carrying edges matter, and of those only the set. */
  lemma RelaxAllSameCarriers(g: Setting, a: seq<Edge>, b: seq<Edge>, scores: Scores, blacklist: set<Str>)
    requires forall e :: Carries(scores, blacklist, e) ==> (e in a <==> e in b)
    ensures RelaxAll(g, a, scores, blacklist) == RelaxAll(g, b, scores, blacklist)
  {
    var ra, rb := RelaxAll(g, a, scores, blacklist), RelaxAll(g, b, scores, blacklist);
    forall x | x in ra ensures x in rb && ra[x] <= rb[x] { RelaxAllBelow(g, a, b, scores, blacklist, x); }
    forall x | x in rb ensures x in ra && rb[x] <= ra[x] { RelaxAllBelow(g, b, a, scores, blacklist, x); }
    assert ra.Keys == rb.Keys;
  }

  lemma StepSameEdges(g: Setting, a: seq<Edge>, b: seq<Edge>, st: State)
    requires SameEdges(a, b)
    ensures Step(g, a, st) == Step(g, b, st)
  {
    assert BlacklistOf(g, a, st.scores) == BlacklistOf(g, b, st.scores);
    RelaxAllSameCarriers(g, a, b, st.scores, BlacklistOf(g, a, st.scores));
  }

  /** The state after any number of hops is a function of the set of edges. */
  lemma {:induction false} HopsSameEdges(g: Setting, a: seq<Edge>, b: seq<Edge>, st: State, n: nat)
    requires SameEdges(a, b)
    ensures Hops(g, a, st, n) == Hops(g, b, st, n)
  {
    hide Step;
    hide SameEdges;
    if n > 0 {
      HopsSameEdges(g, a, b, st, n - 1);
      StepSameEdges(g, a, b, Hops(g, a, st, n - 1));
    }
  }

  /** A state has one table, whatever order its scores were read in. */
  lemma TableUnique(a: seq<ScoreRow>, b: seq<ScoreRow>, st: State, kinds: map<Str, EntityKind>)
    requires IsTable(a, st, kinds) && IsTable(b, st, kinds)
    ensures a == b
  {
    IncreasingUnique(Ids(a), Ids(b));
    forall i | 0 <= i < |a| ensures |a| == |b| && a[i] == b[i] {
      assert Ids(a)[i] == Ids(b)[i];
    }
    assert |Ids(a)| == |Ids(b)|;
  }

  /** Two runs over the same set of edges, in any order and multiplicity, return the same rows. */
  lemma TablesOfSameEdges(g: Setting, a: seq<Edge>, b: seq<Edge>, start: State, kinds: map<Str, EntityKind>,
                          rowsA: seq<ScoreRow>, rowsB: seq<ScoreRow>)
    requires SameEdges(a, b)
    requires IsTable(rowsA, Hops(g, a, start, MAX_HOPS), kinds)
    requires IsTable(rowsB, Hops(g, b, start, MAX_HOPS), kinds)
    ensures rowsA == rowsB
  {
    HopsSameEdges(g, a, b, start, MAX_HOPS);
    TableUnique(rowsA, rowsB, Hops(g, a, start, MAX_HOPS), kinds);
  }
}
