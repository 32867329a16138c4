/**
  VeriRank: hop-bounded trust propagation over a weighted attestation graph.
  Each hop reads the previous hop's scores only, relaxes every edge, then zeroes
  the subjects that a highly scored issuer attested negatively.
  Scores are reals and time decay is a function parameter.
 */
module VeriRank {
  import opened Text

  const MAX_HOPS: nat := 4
  const DISTANCE_DECAY := 0.8
  const BLACKLIST_ISSUER_THRESHOLD := 80.0
  const MAX_CLOCK_SKEW := 120 // seconds

  datatype Edge = Edge(issuer: Str, subject: Str, score: int, timestamp: int)
  datatype EntityKind = Agent | Issuer | Both
  datatype Principal = Principal(id: Str, kind: EntityKind, trustWeight: real, isBootstrap: bool)
  datatype Root = Root(id: Str, weight: real)
  datatype Claim = Claim(issuer: Str, subject: Str, delta: int, issuedAt: Option<int>)

  datatype ScoreReason = Propagated | Blacklisted
  datatype ScoreRow = ScoreRow(principalId: Str, kind: Option<EntityKind>, score: int,
                               blacklisted: bool, reason: ScoreReason)

  type Scores = map<Str, real>

  /** What every hop reads besides the scores: issuer weights, the decay curve and the evaluation time. */
  datatype Setting = Setting(weights: map<Str, real>, decay: int -> real, now: int)

  /** Scores after some hops, and every subject blacklisted by one of them. */
  datatype State = State(scores: Scores, flagged: set<Str>)

  function At(m: Scores, x: Str): real {
    if x in m then m[x] else 0.0
  }

  /** Missing principal metadata is fail-closed: weight 0. */
  function Weight(g: Setting, id: Str): real {
    if id in g.weights then g.weights[id] else 0.0
  }

  /** Age in seconds, never negative. */
  function Age(t: int, now: int): nat {
    if now < t then 0 else now - t
  }

  function TimeDecay(g: Setting, e: Edge): real {
    g.decay(Age(e.timestamp, g.now))
  }

  function Contribution(g: Setting, v: real, e: Edge): real {
    v * (e.score as real / 100.0) * DISTANCE_DECAY * TimeDecay(g, e) * Weight(g, e.issuer)
  }

  /** e is a negative attestation whose issuer scores high enough, after its trust weight, to blacklist. */
  predicate Blacklists(g: Setting, scores: Scores, e: Edge) {
    && e.score < 0
    && e.issuer in scores
    && scores[e.issuer] * Weight(g, e.issuer) >= BLACKLIST_ISSUER_THRESHOLD
  }

  function BlacklistOf(g: Setting, edges: seq<Edge>, scores: Scores): set<Str> {
    set e | e in edges && Blacklists(g, scores, e) :: e.subject
  }

  predicate Carries(scores: Scores, blacklist: set<Str>, e: Edge) {
    e.issuer !in blacklist && e.issuer in scores
  }

  function Relax(g: Setting, scores: Scores, blacklist: set<Str>, next: Scores, e: Edge): Scores {
    if Carries(scores, blacklist, e) && Contribution(g, scores[e.issuer], e) > At(next, e.subject)
    then next[e.subject := Contribution(g, scores[e.issuer], e)]
    else next
  }

  /** Relaxing the edges in list order, reading only the previous hop's scores. */
  function RelaxAll(g: Setting, edges: seq<Edge>, scores: Scores, blacklist: set<Str>): Scores {
    if edges == [] then scores
    else Relax(g, scores, blacklist, RelaxAll(g, edges[..|edges|-1], scores, blacklist), edges[|edges|-1])
  }

  function Override(next: Scores, blacklist: set<Str>): Scores {
    map x | x in next.Keys + blacklist :: if x in blacklist then 0.0 else next[x]
  }

  /** One hop. */
  function Step(g: Setting, edges: seq<Edge>, st: State): State {
    var blacklist := BlacklistOf(g, edges, st.scores);
    State(Override(RelaxAll(g, edges, st.scores, blacklist), blacklist), st.flagged + blacklist)
  }

  /** n hops with no early exit. */
  function Hops(g: Setting, edges: seq<Edge>, st: State, n: nat): State {
    if n == 0 then st else Step(g, edges, Hops(g, edges, st, n - 1))
  }

  function Clamp(score: real): real {
    if score < 0.0 then 0.0 else if score > 100.0 then 100.0 else score
  }

  /** math.Round on a non-negative argument: halves round up. */
  function Round(score: real): int {
    (score + 0.5).Floor
  }

  function RowOf(st: State, kinds: map<Str, EntityKind>, x: Str): ScoreRow
    requires x in st.scores
  {
    ScoreRow(x, if x in kinds then Some(kinds[x]) else None, Round(Clamp(st.scores[x])),
             x in st.flagged, if x in st.flagged then Blacklisted else Propagated)
  }

  function Ids(rows: seq<ScoreRow>): seq<Str> {
    seq(|rows|, i requires 0 <= i < |rows| => rows[i].principalId)
  }

  /** The rows are exactly one row per scored principal, sorted by id. */
  ghost predicate IsTable(rows: seq<ScoreRow>, st: State, kinds: map<Str, EntityKind>) {
    && Increasing(Ids(rows))
    && (forall x :: x in st.scores <==> x in Ids(rows))
    && (forall i :: 0 <= i < |rows| ==>
        rows[i].principalId in st.scores && rows[i] == RowOf(st, kinds, rows[i].principalId))
  }

  function InitialScores(roots: seq<Root>): Scores {
    if roots == [] then map[]
    else InitialScores(roots[..|roots|-1])[roots[|roots|-1].id := 100.0 * roots[|roots|-1].weight]
  }

  function WeightsOf(principals: seq<Principal>): map<Str, real> {
    if principals == [] then map[]
    else
      var p := principals[|principals|-1];
      WeightsOf(principals[..|principals|-1])[p.id := p.trustWeight]
  }

  function KindsOf(principals: seq<Principal>): map<Str, EntityKind> {
    if principals == [] then map[]
    else KindsOf(principals[..|principals|-1])[principals[|principals|-1].id := principals[|principals|-1].kind]
  }

  function SettingOf(principals: seq<Principal>, decay: int -> real, now: int): Setting {
    Setting(WeightsOf(principals), decay, now)
  }

  function Start(roots: seq<Root>): State {
    State(InitialScores(roots), {})
  }

  function EdgesOf(claims: seq<Claim>, now: int): seq<Edge> {
    if claims == [] then []
    else
      var c := claims[|claims|-1];
      EdgesOf(claims[..|claims|-1], now) +
      (if c.issuedAt.None? || c.issuedAt.value > now + MAX_CLOCK_SKEW then []
       else [Edge(c.issuer, c.subject, c.delta, if c.issuedAt.value > now then now else c.issuedAt.value)])
  }

  // ----- The engine's loops -----

  method LoadWeights(principals: seq<Principal>) returns (weights: map<Str, real>, kinds: map<Str, EntityKind>)
    ensures weights == WeightsOf(principals)
    ensures kinds == KindsOf(principals)
  {
    weights, kinds := map[], map[];
    for i := 0 to |principals|
      invariant weights == WeightsOf(principals[..i])
      invariant kinds == KindsOf(principals[..i])
    {
      assert principals[..i+1][..i] == principals[..i];
      weights := weights[principals[i].id := principals[i].trustWeight];
      kinds := kinds[principals[i].id := principals[i].kind];
    }
    assert principals[..|principals|] == principals;
  }

  method LoadRoots(roots: seq<Root>) returns (scores: Scores)
    ensures scores == InitialScores(roots)
  {
    scores := map[];
    for i := 0 to |roots|
      invariant scores == InitialScores(roots[..i])
    {
      assert roots[..i+1][..i] == roots[..i];
      scores := scores[roots[i].id := 100.0 * roots[i].weight];
    }
    assert roots[..|roots|] == roots;
  }

  method FindBlacklist(g: Setting, edges: seq<Edge>, scores: Scores) returns (blacklist: set<Str>)
    ensures blacklist == BlacklistOf(g, edges, scores)
  {
    blacklist := {};
    for i := 0 to |edges|
      invariant blacklist == BlacklistOf(g, edges[..i], scores)
    {
      var e := edges[i];
      assert edges[..i+1] == edges[..i] + [e];
      if e.score < 0 && e.issuer in scores {
        var effective := scores[e.issuer] * Weight(g, e.issuer);
        if effective >= BLACKLIST_ISSUER_THRESHOLD {
          blacklist := blacklist + {e.subject};
        }
      }
    }
    assert edges[..|edges|] == edges;
  }

  /** One hop's relaxation loop; changed tells exactly whether any score moved. */
  method RelaxEdges(g: Setting, edges: seq<Edge>, scores: Scores, blacklist: set<Str>)
    returns (next: Scores, changed: bool)
    ensures next == RelaxAll(g, edges, scores, blacklist)
    ensures changed <==> next != scores
  {
    next, changed := scores, false;
    ghost var raised := [];
    for i := 0 to |edges|
      invariant next == RelaxAll(g, edges[..i], scores, blacklist)
      invariant forall x :: x in scores ==> x in next && next[x] >= scores[x]
      invariant !changed ==> next == scores
      invariant changed ==> raised in next && (raised !in scores || next[raised] > scores[raised])
    {
      var e := edges[i];
      assert edges[..i+1][..i] == edges[..i];
      if e.issuer in blacklist || e.issuer !in scores {
        continue;
      }
      var contribution := Contribution(g, scores[e.issuer], e);
      if contribution > At(next, e.subject) {
        next := next[e.subject := contribution];
        if !changed { raised := e.subject; }
        changed := true;
      }
    }
    assert edges[..|edges|] == edges;
  }

  method ApplyOverrides(relaxed: Scores, blacklist: set<Str>) returns (next: Scores)
    ensures next == Override(relaxed, blacklist)
  {
    next := relaxed;
    var todo := blacklist;
    while todo != {}
      invariant todo <= blacklist
      invariant next == Override(relaxed, blacklist - todo)
      decreases todo
    {
      var subject :| subject in todo;
      assert blacklist - (todo - {subject}) == (blacklist - todo) + {subject};
      next := next[subject := 0.0];
      todo := todo - {subject};
    }
    assert blacklist - {} == blacklist;
  }

  /** Once a hop changes nothing, neither does any later hop. */
  lemma {:induction false} StableHops(g: Setting, edges: seq<Edge>, st: State, k: nat, n: nat)
    requires k <= n
    requires Step(g, edges, Hops(g, edges, st, k)) == Hops(g, edges, st, k)
    ensures Hops(g, edges, st, n) == Hops(g, edges, st, k)
    decreases n
  {
    if k < n { StableHops(g, edges, st, k, n - 1); }
  }

  /** The hop loop: leaving early on an unchanged hop gives the state after all four hops. */
  method RunHops(g: Setting, edges: seq<Edge>, start: Scores) returns (scores: Scores, flagged: set<Str>)
    ensures State(scores, flagged) == Hops(g, edges, State(start, {}), 4)
  {
    hide RelaxAll;
    hide BlacklistOf;
    scores, flagged := start, {};
    ghost var origin := State(start, {});
    var hop := 0;
    while hop < MAX_HOPS
      invariant 0 <= hop <= MAX_HOPS
      invariant State(scores, flagged) == Hops(g, edges, origin, hop)
    {
      ghost var before := State(scores, flagged);
      var blacklist := FindBlacklist(g, edges, scores);
      var relaxed, changed := RelaxEdges(g, edges, scores, blacklist);
      var next := ApplyOverrides(relaxed, blacklist);
      scores, flagged := next, flagged + blacklist;
      assert State(scores, flagged) == Step(g, edges, before);
      if !changed && blacklist == {} {
        assert Step(g, edges, before) == before;
        StableHops(g, edges, origin, hop, MAX_HOPS);
        break;
      }
      hop := hop + 1;
    }
  }

  function InsertRow(rows: seq<ScoreRow>, row: ScoreRow): (r: seq<ScoreRow>)
    requires Increasing(Ids(rows)) && row.principalId !in Ids(rows)
    ensures |r| == |rows| + 1
    ensures Increasing(Ids(r))
    ensures forall x :: x in r <==> x == row || x in rows
  {
    if rows == [] then [row]
    else if Less(row.principalId, rows[0].principalId) then
      assert forall i :: 0 <= i < |rows| ==> Ids(rows)[i] == rows[i].principalId;
      InsertRowFirst(rows, row);
      [row] + rows
    else
      assert Ids(rows[1..]) == Ids(rows)[1..];
      assert Ids(rows)[0] == rows[0].principalId;
      var tail := InsertRow(rows[1..], row);
      LessTotal(row.principalId, rows[0].principalId);
      InsertRowAfter(rows, row, tail);
      [rows[0]] + tail
  }

  lemma InsertRowFirst(rows: seq<ScoreRow>, row: ScoreRow)
    requires rows != [] && Increasing(Ids(rows)) && Less(row.principalId, rows[0].principalId)
    ensures Increasing(Ids([row] + rows))
  {
    var ids := Ids([row] + rows);
    forall i, j | 0 <= i < j < |ids| ensures Less(ids[i], ids[j]) {
      assert ids[j] == Ids(rows)[j - 1];
      if i > 0 {
        assert ids[i] == Ids(rows)[i - 1];
      } else if j > 1 {
        assert Less(Ids(rows)[0], Ids(rows)[j - 1]);
        LessTransitive(row.principalId, rows[0].principalId, ids[j]);
      }
    }
  }

  lemma InsertRowAfter(rows: seq<ScoreRow>, row: ScoreRow, tail: seq<ScoreRow>)
    requires rows != [] && Increasing(Ids(rows)) && Less(rows[0].principalId, row.principalId)
    requires Increasing(Ids(tail)) && forall x :: x in tail <==> x == row || x in rows[1..]
    ensures Increasing(Ids([rows[0]] + tail))
  {
    var ids := Ids([rows[0]] + tail);
    forall i, j | 0 <= i < j < |ids| ensures Less(ids[i], ids[j]) {
      assert ids[j] == Ids(tail)[j - 1] == tail[j - 1].principalId;
      if i > 0 {
        assert ids[i] == Ids(tail)[i - 1];
      } else {
        assert tail[j - 1] in tail;
        if tail[j - 1] != row {
          var k :| 1 <= k < |rows| && rows[k] == tail[j - 1];
          assert Less(Ids(rows)[0], Ids(rows)[k]);
        }
      }
    }
  }

  /** Builds and sorts the rows; the map is read in no particular order. */
  method BuildRows(scores: Scores, flagged: set<Str>, kinds: map<Str, EntityKind>) returns (rows: seq<ScoreRow>)
    ensures IsTable(rows, State(scores, flagged), kinds)
  {
    rows := [];
    var todo := scores.Keys;
    while todo != {}
      invariant todo <= scores.Keys
      invariant Increasing(Ids(rows))
      invariant forall r :: r in rows ==>
                r.principalId in scores.Keys - todo && r == RowOf(State(scores, flagged), kinds, r.principalId)
      invariant forall x :: x in scores.Keys - todo ==> RowOf(State(scores, flagged), kinds, x) in rows
      decreases todo
    {
      var node :| node in todo;
      var clamped := Clamp(scores[node]);
      var rounded := Round(clamped);
      var row := ScoreRow(node, if node in kinds then Some(kinds[node]) else None, rounded,
                          node in flagged, if node in flagged then Blacklisted else Propagated);
      assert forall i :: 0 <= i < |rows| ==> Ids(rows)[i] == rows[i].principalId && rows[i] in rows;
      rows := InsertRow(rows, row);
      todo := todo - {node};
    }
    forall x ensures x in scores <==> x in Ids(rows) {
      if x in scores {
        var r := RowOf(State(scores, flagged), kinds, x);
        assert r in rows;
        var i :| 0 <= i < |rows| && rows[i] == r;
        assert Ids(rows)[i] == x;
      }
      if x in Ids(rows) {
        var i :| 0 <= i < |rows| && Ids(rows)[i] == x;
        assert rows[i] in rows;
      }
    }
  }

  method Propagate(edges: seq<Edge>, principals: seq<Principal>, roots: seq<Root>, decay: int -> real, now: int)
    returns (rows: seq<ScoreRow>)
    ensures IsTable(rows, Hops(SettingOf(principals, decay, now), edges, Start(roots), MAX_HOPS), KindsOf(principals))
  {
    var weights, kinds := LoadWeights(principals);
    var start := LoadRoots(roots);
    var scores, flagged := RunHops(Setting(weights, decay, now), edges, start);
    rows := BuildRows(scores, flagged, kinds);
  }

  method RunVeriRank(claims: seq<Claim>, principals: seq<Principal>, roots: seq<Root>, decay: int -> real, now: int)
    returns (rows: seq<ScoreRow>)
    ensures IsTable(rows, Hops(SettingOf(principals, decay, now), EdgesOf(claims, now), Start(roots), MAX_HOPS),
                    KindsOf(principals))
  {
    var edges := [];
    for i := 0 to |claims|
      invariant edges == EdgesOf(claims[..i], now)
    {
      assert claims[..i+1][..i] == claims[..i];
      var c := claims[i];
      if c.issuedAt.None? { continue; }
      if c.issuedAt.value > now + MAX_CLOCK_SKEW { continue; }
      var timestamp := c.issuedAt.value;
      if timestamp > now { timestamp := now; }
      edges := edges + [Edge(c.issuer, c.subject, c.delta, timestamp)];
    }
    assert claims[..|claims|] == claims;
    rows := Propagate(edges, principals, roots, decay, now);
  }
}
