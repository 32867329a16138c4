/**
  Score replication as one state machine: the control plane's log and table, a stream of frames in flight, and the edge
  with its snapshot file, under disconnects, snapshot recovery, persistence and restart.
 */
module Replication {
  import opened Text
  import opened ScoreLog
  import opened EdgeStore
  import opened SseSession

  datatype System = System(log: seq<Event>, table: Table, session: Option<Session>, edge: Edge,
                           recovering: Option<Snapshot>, disk: Option<Snapshot>)

  /** What a deployment fixes: the edge's tenant, the batch limit and which frames exceed the size limit. */
  datatype Config = Config(tenant: Option<Str>, limit: nat, oversized: Frame -> bool)

  datatype Step = Commit(events: seq<Event>) | Connect | FetchSnapshot | Poll | Heartbeat | Deliver | Disconnect
                | ApplyRecovery(saved: bool) | Persist | Restart

  function ReplayOn(t: Table, events: seq<Event>): Table {
    if events == [] then t else ApplyTo(ReplayOn(t, events[..|events|-1]), events[|events|-1])
  }

  /** The versions a batch read leaves out because of its limit. */
  function CutVersions(log: seq<Event>, since: int, cfg: Config): seq<int> {
    var vs := Versions(log, since, |log|, cfg.tenant);
    if |vs| <= cfg.limit then [] else vs[cfg.limit..]
  }

  /** No event left out by the limit is a score event. */
  predicate CutSafe(log: seq<Event>, since: int, cfg: Config) {
    forall i :: 0 <= i < |CutVersions(log, since, cfg)| ==> IsOther(log, CutVersions(log, since, cfg)[i])
  }

  predicate IsOther(log: seq<Event>, v: int) {
    1 <= v <= |log| && log[v-1].Other?
  }

  function Receive(edge: Edge, f: Frame): Result<Edge, ApplyError> {
    match f
    case EventFrame(v, e) => Applied(edge, v, e)
    case CursorFrame(v) => Ok(AdvanceCursor(edge, v))
    case Ping => Ok(edge)
  }

  ghost predicate Next(cfg: Config, s: System, step: Step, s': System) {
    match step
    case Commit(events) => s' == s.(log := s.log + events, table := ReplayOn(s.table, events))
    case Connect =>
      && s.session.None? && s.recovering.None?
      && |Versions(s.log, s.edge.hw, |s.log|, cfg.tenant)| <= cfg.limit
      && s' == s.(session := Some(Emit(Session(-1, [], false), Batch(s.log, s.edge.hw, cfg.tenant, cfg.limit).0,
                                       |s.log|, cfg.oversized)))
    case FetchSnapshot =>
      && s.session.None? && s.recovering.None? && [] !in s.table
      && s' == s.(recovering := Some(Snapshot(|s.log|, s.table)))
    case Poll =>
      && s.session.Some? && !s.session.value.aborted
      && CutSafe(s.log, s.session.value.lastEmittedHw, cfg)
      && var events := Batch(s.log, s.session.value.lastEmittedHw, cfg.tenant, cfg.limit).0;
         s' == s.(session := Some(Emit(s.session.value, events, |s.log|, cfg.oversized)))
    case Heartbeat =>
      && s.session.Some? && !s.session.value.aborted
      && s' == s.(session := Some(s.session.value.(queued := s.session.value.queued + [Ping])))
    case Deliver =>
      && s.session.Some? && s.session.value.queued != []
      && var q := s.session.value.queued;
         var r := Receive(s.edge, q[0]);
         s' == (if r.Ok? then s.(edge := r.value, session := Some(s.session.value.(queued := q[1..])))
                else s.(session := None))
    case Disconnect => s' == s.(session := None, recovering := None)
    case ApplyRecovery(saved) =>
      && s.recovering.Some?
      && var edge := ApplySnapshot(s.recovering.value);
         s' == s.(edge := edge, recovering := None, disk := if saved then Some(SnapshotForPersist(edge)) else s.disk)
    case Persist => s' == s.(disk := Some(SnapshotForPersist(s.edge)))
    case Restart =>
      s' == s.(session := None, recovering := None,
               edge := if s.disk.Some? then ApplySnapshot(s.disk.value) else Edge(None, 0))
  }

  predicate Init(s: System) {
    s == System([], map[], None, Edge(None, 0), None, None)
  }

  // ----- What a stream of frames promises -----

  /** Received at position p, the frame is the next score event, or skips none. */
  predicate FrameOk(log: seq<Event>, p: int, f: Frame) {
    match f
    case EventFrame(v, e) => 0 <= p < v <= |log| && log[v-1] == e && NoScore(log, p, v - 1)
    case CursorFrame(v) => 0 <= v <= |log| && NoScore(log, p, v)
    case Ping => true
  }

  function After(p: int, f: Frame): int {
    match f
    case EventFrame(v, _) => v
    case CursorFrame(v) => if v > p then v else p
    case Ping => p
  }

  predicate Covered(log: seq<Event>, p: int, frames: seq<Frame>)
    decreases |frames|
  {
    frames == [] || (FrameOk(log, p, frames[0]) && Covered(log, After(p, frames[0]), frames[1..]))
  }

  function EndPos(p: int, frames: seq<Frame>): int
    decreases |frames|
  {
    if frames == [] then p else EndPos(After(p, frames[0]), frames[1..])
  }

  lemma {:induction false} CoveredConcat(log: seq<Event>, p: int, a: seq<Frame>, b: seq<Frame>)
    ensures Covered(log, p, a + b) <==> Covered(log, p, a) && Covered(log, EndPos(p, a), b)
    ensures EndPos(p, a + b) == EndPos(EndPos(p, a), b)
    decreases |a|
  {
    if a == [] {
      assert a + b == b;
    } else {
      CoveredConcat(log, After(p, a[0]), a[1..], b);
      assert (a + b)[1..] == a[1..] + b;
    }
  }

  lemma CoveredSnoc(log: seq<Event>, p: int, a: seq<Frame>, f: Frame)
    ensures Covered(log, p, a + [f]) <==> Covered(log, p, a) && FrameOk(log, EndPos(p, a), f)
    ensures EndPos(p, a + [f]) == After(EndPos(p, a), f)
  {
    CoveredConcat(log, p, a, [f]);
    assert [f][1..] == [];
    assert Covered(log, EndPos(p, a), [f]) <==> FrameOk(log, EndPos(p, a), f);
    assert EndPos(EndPos(p, a), [f]) == After(EndPos(p, a), f);
  }

  lemma {:induction false} CoveredGrows(log: seq<Event>, events: seq<Event>, p: int, frames: seq<Frame>)
    requires Covered(log, p, frames)
    ensures Covered(log + events, p, frames)
    decreases |frames|
  {
    if frames != [] { CoveredGrows(log, events, After(p, frames[0]), frames[1..]); }
  }

  /** All visible events up to hw, framed in order, skip no score event. */
  lemma {:induction false} VersionsCovered(log: seq<Event>, p: nat, hw: nat, tenant: Option<Str>)
    requires p <= hw <= |log|
    ensures var fs := EventFrames(log, Versions(log, p, hw, tenant));
            Covered(log, p, fs) && p <= EndPos(p, fs) <= hw && NoScore(log, EndPos(p, fs), hw)
    decreases hw
  {
    hide Covered;
    hide EndPos;
    hide Versions;
    hide EventFrames;
    EmptyCovered(log, p);
    if hw > p {
      VersionsCovered(log, p, hw - 1, tenant);
      FramesSnoc(log, p, hw, tenant);
      var fs := EventFrames(log, Versions(log, p, hw - 1, tenant));
      if Visible(log[hw-1], tenant) {
        CoveredSnoc(log, p, fs, EventFrame(hw, log[hw-1]));
      } else {
        assert fs + [] == fs;
      }
    } else {
      NoFrames(log, p, hw, tenant);
    }
  }

  lemma FramesSnoc(log: seq<Event>, p: int, hw: nat, tenant: Option<Str>)
    requires p < hw <= |log| && 0 < hw
    ensures EventFrames(log, Versions(log, p, hw, tenant)) ==
            EventFrames(log, Versions(log, p, hw - 1, tenant)) +
            if Visible(log[hw-1], tenant) then [EventFrame(hw, log[hw-1])] else []
  {
    var vs := Versions(log, p, hw - 1, tenant);
    assert vs + [] == vs;
  }

  lemma NoFrames(log: seq<Event>, p: int, hw: nat, tenant: Option<Str>)
    requires hw <= p && hw <= |log|
    ensures EventFrames(log, Versions(log, p, hw, tenant)) == []
  {
  }

  lemma EmptyCovered(log: seq<Event>, p: int)
    ensures Covered(log, p, []) && EndPos(p, []) == p
  {
  }

  lemma {:induction false} VersionsHoldScores(log: seq<Event>, p: int, hw: nat, tenant: Option<Str>, v: int)
    requires hw <= |log| && p < v <= hw && 1 <= v && !log[v-1].Other?
    ensures v in Versions(log, p, hw, tenant)
    decreases hw
  {
    if v < hw { VersionsHoldScores(log, p, hw - 1, tenant, v); }
  }

  lemma {:induction false} VersionsSorted(log: seq<Event>, p: int, hw: nat, tenant: Option<Str>)
    requires hw <= |log|
    ensures forall i, j :: 0 <= i < j < |Versions(log, p, hw, tenant)| ==>
            Versions(log, p, hw, tenant)[i] < Versions(log, p, hw, tenant)[j]
    decreases hw
  {
    if !(hw == 0 || hw <= p) { VersionsSorted(log, p, hw - 1, tenant); }
  }

  /** Score events reach every edge; another event reaches all when it is global or no tenant is set, else its own. */
  lemma {:induction false} VersionsIff(log: seq<Event>, since: int, hw: nat, tenant: Option<Str>, v: int)
    requires hw <= |log|
    ensures v in Versions(log, since, hw, tenant) <==>
            && since < v <= hw && 1 <= v
            && (log[v-1].Upsert? || log[v-1].Delete? || tenant.None? || log[v-1].tenant.None?
                || log[v-1].tenant.value == tenant.value)
    decreases hw
  {
    if !(hw == 0 || hw <= since) { VersionsIff(log, since, hw - 1, tenant, v); }
  }

  lemma SentIs(log: seq<Event>, since: int, cfg: Config)
    ensures var vs, sent := Versions(log, since, |log|, cfg.tenant), Sent(log, since, cfg);
            && |sent| == (if |vs| <= cfg.limit then |vs| else cfg.limit)
            && forall i :: 0 <= i < |sent| ==> sent[i] == EventFrame(vs[i], log[vs[i]-1])
  {
    hide Versions;
  }

  lemma BatchHas(vs: seq<int>, sent: seq<Frame>, n: nat, limit: nat)
    requires n <= |vs| && (n == |vs| || n == limit) && |sent| == n
    requires forall i, j :: 0 <= i < j < |vs| ==> vs[i] < vs[j]
    requires forall i :: 0 <= i < n ==> sent[i].EventFrame? && sent[i].version == vs[i]
    ensures forall i, j :: 0 <= i < j < n ==> sent[i].version < sent[j].version
    ensures forall v :: v in vs ==>
            || (exists i :: 0 <= i < n && sent[i].version == v)
            || (n == limit && forall i :: 0 <= i < n ==> sent[i].version < v)
  {
    forall v | v in vs
      ensures || (exists i :: 0 <= i < n && sent[i].version == v)
              || (n == limit && forall i :: 0 <= i < n ==> sent[i].version < v)
    {
      var k :| 0 <= k < |vs| && vs[k] == v;
      if k < n { assert sent[k].version == v; }
    }
  }

  /**
    One read: at most limit frames, versions rising, each carrying the event the log has under that version. A version
    the tenant may see is among them, unless the limit was reached by smaller ones.
   */
  lemma BatchMeaning(log: seq<Event>, since: int, cfg: Config)
    ensures var sent := Sent(log, since, cfg);
            && |sent| <= cfg.limit
            && (forall i :: 0 <= i < |sent| ==>
                sent[i].EventFrame? && sent[i].version in Versions(log, since, |log|, cfg.tenant)
                && sent[i].event == log[sent[i].version - 1])
            && (forall i, j :: 0 <= i < j < |sent| ==> sent[i].version < sent[j].version)
            && (forall v :: v in Versions(log, since, |log|, cfg.tenant) ==>
                || (exists i :: 0 <= i < |sent| && sent[i].version == v)
                || (|sent| == cfg.limit && forall i :: 0 <= i < |sent| ==> sent[i].version < v))
  {
    hide Versions;
    var vs, sent := Versions(log, since, |log|, cfg.tenant), Sent(log, since, cfg);
    SentIs(log, since, cfg);
    hide Sent;
    VersionsSorted(log, since, |log|, cfg.tenant);
    BatchHas(vs, sent, |sent|, cfg.limit);
  }

  lemma {:induction false} EndOfEvents(log: seq<Event>, p: int, vs: seq<int>)
    requires forall i :: 0 <= i < |vs| ==> 1 <= vs[i] <= |log|
    ensures EndPos(p, EventFrames(log, vs)) == if vs == [] then p else vs[|vs|-1]
  {
    if vs != [] {
      var last := |vs| - 1;
      var fs := EventFrames(log, vs[..last]);
      assert EventFrames(log, vs) == fs + [EventFrame(vs[last], log[vs[last]-1])];
      CoveredSnoc(log, p, fs, EventFrame(vs[last], log[vs[last]-1]));
    }
  }

  /** The events a batch read returns, framed in order. */
  function Sent(log: seq<Event>, since: int, cfg: Config): seq<Frame> {
    Batch(log, since, cfg.tenant, cfg.limit).0
  }

  lemma SentCovered(log: seq<Event>, p: nat, cfg: Config)
    requires p <= |log|
    ensures Covered(log, p, Sent(log, p, cfg)) && p <= EndPos(p, Sent(log, p, cfg)) <= |log|
  {
    hide Versions;
    hide Covered;
    hide EndPos;
    var vs := Versions(log, p, |log|, cfg.tenant);
    VersionsCovered(log, p, |log|, cfg.tenant);
    var all, sent := EventFrames(log, vs), Sent(log, p, cfg);
    if |vs| > cfg.limit {
      assert all == sent + all[cfg.limit..];
      CoveredConcat(log, p, sent, all[cfg.limit..]);
      EndOfEvents(log, p, vs[..cfg.limit]);
    }
  }

  /**
    Exactly when the cursor frame after a batch is honest: it skips no score event if and only if every event the
    limit cut off is not a score event. The cursor always carries the global high water.
   */
  lemma CursorHonestIff(log: seq<Event>, p: nat, cfg: Config)
    requires p <= |log|
    ensures Covered(log, p, Sent(log, p, cfg) + [CursorFrame(|log|)]) <==> CutSafe(log, p, cfg)
    ensures EndPos(p, Sent(log, p, cfg) + [CursorFrame(|log|)]) == |log|
  {
    var sent := Sent(log, p, cfg);
    SentCovered(log, p, cfg);
    CoveredSnoc(log, p, sent, CursorFrame(|log|));
    CutIffNoScore(log, p, cfg);
  }

  lemma CutIffNoScore(log: seq<Event>, p: nat, cfg: Config)
    requires p <= |log|
    ensures CutSafe(log, p, cfg) <==> NoScore(log, EndPos(p, Sent(log, p, cfg)), |log|)
  {
    hide Versions;
    hide EndPos;
    hide Covered;
    hide EventFrames;
    var vs, end := Versions(log, p, |log|, cfg.tenant), EndPos(p, Sent(log, p, cfg));
    if |vs| <= cfg.limit {
      VersionsCovered(log, p, |log|, cfg.tenant);
      return;
    }
    SentEnd(log, p, cfg);
    if CutSafe(log, p, cfg) {
      forall i | end <= i < |log| ensures log[i].Other? {
        if !log[i].Other? { var _ := CutHoldsScores(log, p, cfg, end, i); }
      }
    } else {
      CutScoreFound(log, p, cfg, end);
    }
  }

  /** Cut versions lie past the last one sent. */
  lemma SentEnd(log: seq<Event>, p: nat, cfg: Config)
    requires p <= |log| && |Versions(log, p, |log|, cfg.tenant)| > cfg.limit
    ensures var vs, end := Versions(log, p, |log|, cfg.tenant), EndPos(p, Sent(log, p, cfg));
            && p <= end <= |log|
            && (forall j :: 0 <= j < cfg.limit ==> vs[j] <= end) && (forall j :: cfg.limit <= j < |vs| ==> vs[j] > end)
  {
    hide Versions;
    EndOfEvents(log, p, Versions(log, p, |log|, cfg.tenant)[..cfg.limit]);
    VersionsSorted(log, p, |log|, cfg.tenant);
  }

  lemma CutScoreFound(log: seq<Event>, p: nat, cfg: Config, end: int)
    requires !CutSafe(log, p, cfg) && p <= end <= |log|
    requires forall j :: cfg.limit <= j < |Versions(log, p, |log|, cfg.tenant)| ==>
             Versions(log, p, |log|, cfg.tenant)[j] > end
    ensures !NoScore(log, end, |log|)
  {
    hide Versions;
    var vs, cut := Versions(log, p, |log|, cfg.tenant), CutVersions(log, p, cfg);
    var i :| 0 <= i < |cut| && !IsOther(log, cut[i]);
    assert cut[i] == vs[cfg.limit + i];
    assert !log[cut[i] - 1].Other?;
  }

  /** A score event past the last one sent is among the cut ones. */
  lemma CutHoldsScores(log: seq<Event>, p: nat, cfg: Config, end: int, i: nat) returns (j: nat)
    requires p <= end <= i < |log| && !log[i].Other? && |Versions(log, p, |log|, cfg.tenant)| > cfg.limit
    requires forall j :: 0 <= j < cfg.limit ==> Versions(log, p, |log|, cfg.tenant)[j] <= end
    ensures j < |CutVersions(log, p, cfg)| && CutVersions(log, p, cfg)[j] == i + 1
  {
    hide Versions;
    var vs := Versions(log, p, |log|, cfg.tenant);
    VersionsHoldScores(log, p, |log|, cfg.tenant, i + 1);
    var k :| 0 <= k < |vs| && vs[k] == i + 1;
    j := k - cfg.limit;
  }

  // ----- The edge -----

  /** The edge's scores are the replay of the log up to its high water. */
  predicate Agrees(log: seq<Event>, edge: Edge) {
    0 <= edge.hw <= |log| && Scores(edge) == Replay(log[..edge.hw])
  }

  /** An honest frame keeps the edge in agreement and moves its high water exactly as far as the frame says. */
  lemma ReceiveAgrees(log: seq<Event>, edge: Edge, f: Frame)
    requires Agrees(log, edge) && FrameOk(log, edge.hw, f) && Receive(edge, f).Ok?
    ensures Agrees(log, Receive(edge, f).value) && Receive(edge, f).value.hw == After(edge.hw, f)
  {
    match f
    case EventFrame(v, e) =>
      ReplayAcross(log, edge.hw, v - 1);
      ReplayAppend(log[..v-1], e);
      assert log[..v] == log[..v-1] + [e];
    case CursorFrame(v) =>
      if v > edge.hw { ReplayAcross(log, edge.hw, v); }
    case Ping =>
  }

  predicate SnapshotOk(log: seq<Event>, snap: Snapshot) {
    0 <= snap.highWater <= |log| && snap.scores == Replay(log[..snap.highWater])
  }

  predicate SysInv(s: System) {
    && s.table == Replay(s.log)
    && Agrees(s.log, s.edge)
    && (s.recovering.Some? ==>
          && s.session.None? && SnapshotOk(s.log, s.recovering.value)
          && s.edge.hw <= s.recovering.value.highWater)
    && (s.disk.Some? ==> SnapshotOk(s.log, s.disk.value))
    && (s.session.Some? ==>
          && Covered(s.log, s.edge.hw, s.session.value.queued)
          && (!s.session.value.aborted ==> EndPos(s.edge.hw, s.session.value.queued) == s.session.value.lastEmittedHw))
  }

  lemma {:induction false} ReplayConcat(log: seq<Event>, events: seq<Event>)
    ensures Replay(log + events) == ReplayOn(Replay(log), events)
  {
    if events == [] {
      assert log + events == log;
    } else {
      var last := |events| - 1;
      ReplayConcat(log, events[..last]);
      assert log + events == (log + events[..last]) + [events[last]];
      ReplayAppend(log + events[..last], events[last]);
    }
  }

  lemma CommitKeeps(s: System, events: seq<Event>, s': System)
    requires SysInv(s) && s' == s.(log := s.log + events, table := ReplayOn(s.table, events))
    ensures SysInv(s')
  {
    ReplayConcat(s.log, events);
    assert forall n :: 0 <= n <= |s.log| ==> s'.log[..n] == s.log[..n];
    if s.session.Some? { CoveredGrows(s.log, events, s.edge.hw, s.session.value.queued); }
  }

  /** A batch and its cursor extend an honest stream honestly. */
  lemma EmitKeeps(cfg: Config, log: seq<Event>, p: int, before: Session, since: nat)
    requires !before.aborted && Covered(log, p, before.queued) && EndPos(p, before.queued) == since <= |log|
    requires before.lastEmittedHw == since || (before.lastEmittedHw == -1 && before.queued == [])
    requires CutSafe(log, since, cfg)
    ensures var after := Emit(before, Sent(log, since, cfg), |log|, cfg.oversized);
            && Covered(log, p, after.queued)
            && (!after.aborted ==> EndPos(p, after.queued) == after.lastEmittedHw)
  {
    hide Sent;
    hide Sendable;
    hide Covered;
    hide EndPos;
    hide CutSafe;
    EmptyCovered(log, p);
    var sent := Sent(log, since, cfg);
    var k := Sendable(sent, cfg.oversized);
    SentCovered(log, since, cfg);
    CursorHonestIff(log, since, cfg);
    CoveredConcat(log, p, before.queued, sent + [CursorFrame(|log|)]);
    assert before.queued + sent + [CursorFrame(|log|)] == before.queued + (sent + [CursorFrame(|log|)]);
    if k < |sent| {
      assert sent == sent[..k] + sent[k..];
      CoveredConcat(log, since, sent[..k], sent[k..]);
      CoveredConcat(log, p, before.queued, sent[..k]);
    } else if |log| <= before.lastEmittedHw {
      CoveredConcat(log, p, before.queued, sent);
      CoveredSnoc(log, since, sent, CursorFrame(|log|));
    }
  }

  lemma NoCutWithinLimit(log: seq<Event>, since: int, cfg: Config)
    requires |Versions(log, since, |log|, cfg.tenant)| <= cfg.limit
    ensures CutSafe(log, since, cfg)
  {
  }

  lemma DeliverKeeps(s: System, s': System)
    requires SysInv(s) && s.session.Some? && s.session.value.queued != []
    requires Receive(s.edge, s.session.value.queued[0]).Ok?
    requires s' == s.(edge := Receive(s.edge, s.session.value.queued[0]).value,
                      session := Some(s.session.value.(queued := s.session.value.queued[1..])))
    ensures SysInv(s') && s'.edge.hw >= s.edge.hw
  {
    ReceiveAgrees(s.log, s.edge, s.session.value.queued[0]);
  }

  /** Every step keeps the invariant, and every step but a restart keeps or raises the high water. */
  lemma NextKeeps(cfg: Config, s: System, step: Step, s': System)
    requires SysInv(s) && Next(cfg, s, step, s')
    ensures SysInv(s')
    ensures !step.Restart? ==> s'.edge.hw >= s.edge.hw
  {
    hide Batch;
    hide Emit;
    hide Versions;
    hide CutSafe;
    hide Replay;
    match step {
      case Commit(events) => CommitKeeps(s, events, s');
      case Connect =>
        NoCutWithinLimit(s.log, s.edge.hw, cfg);
        EmitKeeps(cfg, s.log, s.edge.hw, Session(-1, [], false), s.edge.hw);
      case FetchSnapshot => assert s.log[..|s.log|] == s.log;
      case Poll =>
        SessionWithin(s.log, s.edge.hw, s.session.value.queued);
        EmitKeeps(cfg, s.log, s.edge.hw, s.session.value, s.session.value.lastEmittedHw);
      case Heartbeat => CoveredSnoc(s.log, s.edge.hw, s.session.value.queued, Ping);
      case Deliver =>
        if Receive(s.edge, s.session.value.queued[0]).Ok? { DeliverKeeps(s, s'); }
      case Disconnect =>
      case ApplyRecovery(_) =>
      case Persist =>
      case Restart => assert s.log[..0] == []; EmptyReplay();
    }
  }

  lemma EmptyReplay()
    ensures Replay([]) == map[]
  {
  }

  lemma {:induction false} SessionWithin(log: seq<Event>, p: int, frames: seq<Frame>)
    requires 0 <= p <= |log| && Covered(log, p, frames)
    ensures 0 <= EndPos(p, frames) <= |log|
    decreases |frames|
  {
    if frames != [] { SessionWithin(log, After(p, frames[0]), frames[1..]); }
  }

  // ----- Whole runs -----

  ghost predicate CanStep(cfg: Config, s: System, s': System) {
    exists step :: Next(cfg, s, step, s')
  }

  ghost predicate StepAt(cfg: Config, run: seq<System>, i: nat)
    requires 0 < i < |run|
  {
    CanStep(cfg, run[i-1], run[i])
  }

  ghost predicate IsRun(cfg: Config, run: seq<System>) {
    run != [] && Init(run[0]) && forall i :: 0 < i < |run| ==> StepAt(cfg, run, i)
  }

  lemma {:induction false} RunInv(cfg: Config, run: seq<System>, i: nat)
    requires IsRun(cfg, run) && i < |run|
    ensures SysInv(run[i])
  {
    hide SysInv;
    hide Next;
    if i == 0 {
      InitInv(run[0]);
    } else {
      RunInv(cfg, run, i - 1);
      assert StepAt(cfg, run, i);
      var step :| Next(cfg, run[i-1], step, run[i]);
      NextKeeps(cfg, run[i-1], step, run[i]);
    }
  }

  lemma InitInv(s: System)
    requires Init(s)
    ensures SysInv(s)
  {
  }

  /**
    Agreement: in every reachable state the edge's score map is the replay of the score events up to its high water,
    and once the high water is the log's it is the control plane's own table.
   */
  lemma EdgeAgrees(cfg: Config, run: seq<System>, i: nat)
    requires IsRun(cfg, run) && i < |run|
    ensures Agrees(run[i].log, run[i].edge)
    ensures run[i].edge.hw == |run[i].log| ==> Scores(run[i].edge) == run[i].table
  {
    RunInv(cfg, run, i);
    assert run[i].log[..|run[i].log|] == run[i].log;
  }

  /**
    The high water never falls from one state of a run to a later one with no restart in between, though a snapshot
    stores its mark unconditionally.
   */
  lemma {:induction false} HighWaterRises(cfg: Config, run: seq<System>, i: nat, j: nat)
    requires IsRun(cfg, run) && i <= j < |run|
    requires forall k :: i < k <= j ==> !Restarted(cfg, run, k)
    ensures run[i].edge.hw <= run[j].edge.hw
    decreases j
  {
    hide SysInv;
    hide Next;
    if i < j {
      HighWaterRises(cfg, run, i, j - 1);
      RunInv(cfg, run, j - 1);
      assert StepAt(cfg, run, j) && !Restarted(cfg, run, j);
      var step :| Next(cfg, run[j-1], step, run[j]);
      NextKeeps(cfg, run[j-1], step, run[j]);
    }
  }

  /** Step k could only have been a restart of the edge. */
  ghost predicate Restarted(cfg: Config, run: seq<System>, k: nat) {
    0 < k < |run| && Next(cfg, run[k-1], Restart, run[k])
  }

  // ----- An event mistaken for another type -----

  /**
    The next score event v received under a type the edge does not know: the high water moves to v, past the event, and
    the edge stays in agreement if and only if the event would have changed nothing.
   */
  lemma MistakenEventIff(log: seq<Event>, edge: Edge, v: nat, tenant: Option<Str>)
    requires Agrees(log, edge) && edge.hw < v <= |log| && NoScore(log, edge.hw, v - 1)
    ensures Receive(edge, EventFrame(v, Other(tenant, true))).Ok?
    ensures var after := Receive(edge, EventFrame(v, Other(tenant, true))).value;
            && after.hw == v && Scores(after) == Scores(edge)
            && (Agrees(log, after) <==> ApplyTo(Replay(log[..v-1]), log[v-1]) == Replay(log[..v-1]))
  {
    ReplayAcross(log, edge.hw, v - 1);
    ReplayAppend(log[..v-1], log[v-1]);
    assert log[..v-1] + [log[v-1]] == log[..v];
  }

  // ----- What a cut poll does -----

  function ReceiveAll(edge: Edge, frames: seq<Frame>): Edge
    decreases |frames|
  {
    if frames == [] then edge
    else ReceiveAll(match Receive(edge, frames[0]) case Ok(e) => e case Err(_) => edge, frames[1..])
  }

  predicate AllApplicable(frames: seq<Frame>) {
    forall i :: 0 <= i < |frames| && frames[i].EventFrame? ==> frames[i].version > 0 && Applicable(frames[i].event)
  }

  lemma {:induction false} ReceiveAllAgrees(log: seq<Event>, edge: Edge, frames: seq<Frame>)
    requires Agrees(log, edge) && Covered(log, edge.hw, frames) && AllApplicable(frames)
    ensures Agrees(log, ReceiveAll(edge, frames)) && ReceiveAll(edge, frames).hw == EndPos(edge.hw, frames)
    decreases |frames|
  {
    if frames != [] {
      ReceiveAgrees(log, edge, frames[0]);
      ReceiveAllAgrees(log, Receive(edge, frames[0]).value, frames[1..]);
    }
  }

  lemma {:induction false} ReceiveAllSnoc(edge: Edge, frames: seq<Frame>, v: int)
    ensures ReceiveAll(edge, frames + [CursorFrame(v)]) == AdvanceCursor(ReceiveAll(edge, frames), v)
    decreases |frames|
  {
    if frames == [] {
      assert frames + [CursorFrame(v)] == [CursorFrame(v)] && [CursorFrame(v)][1..] == [];
      assert ReceiveAll(edge, [CursorFrame(v)]) == ReceiveAll(AdvanceCursor(edge, v), []);
    } else {
      var next := match Receive(edge, frames[0]) case Ok(e) => e case Err(_) => edge;
      ReceiveAllSnoc(next, frames[1..], v);
      assert (frames + [CursorFrame(v)])[1..] == frames[1..] + [CursorFrame(v)];
    }
  }

  /**
    An edge in agreement that receives one poll's events and cursor ends at the log's high water, and is then in
    agreement exactly when the events the limit cut off change nothing.
   */
  lemma PollAgreesIff(log: seq<Event>, edge: Edge, cfg: Config)
    requires Agrees(log, edge) && AllApplicable(Sent(log, edge.hw, cfg)) && log != []
    ensures 0 <= EndPos(edge.hw, Sent(log, edge.hw, cfg)) <= |log|
    ensures var sent := Sent(log, edge.hw, cfg);
            var after := ReceiveAll(edge, sent + [CursorFrame(|log|)]);
            && after.hw == |log|
            && (Agrees(log, after) <==> Replay(log[..EndPos(edge.hw, sent)]) == Replay(log))
  {
    hide Batch;
    hide Versions;
    var sent := Sent(log, edge.hw, cfg);
    SentCovered(log, edge.hw, cfg);
    ReceiveAllAgrees(log, edge, sent);
    ReceiveAllSnoc(edge, sent, |log|);
    assert log[..|log|] == log;
  }

  /**
    With a limit of one, two upserts between polls leave the edge without the second for good: its high water is past
    it.
   */
  lemma CutPollDiverges(a: ScoreRow, b: ScoreRow)
    requires a.principalId != [] && b.principalId != [] && a.principalId != b.principalId
    ensures var log := [Upsert(a), Upsert(b)];
            var cfg := Config(None, 1, (f: Frame) => false);
            var after := ReceiveAll(Edge(None, 0), Sent(log, 0, cfg) + [CursorFrame(2)]);
            && !CutSafe(log, 0, cfg) && after.hw == 2 && !Agrees(log, after) && b.principalId !in Scores(after)
            && Versions(log, after.hw, 2, None) == []
  {
    var log := [Upsert(a), Upsert(b)];
    var cfg := Config(None, 1, (f: Frame) => false);
    assert Versions(log, 0, 0, None) == [];
    assert Versions(log, 0, 1, None) == [1];
    assert Versions(log, 0, 2, None) == [1, 2];
    assert CutVersions(log, 0, cfg) == [2];
    assert !IsOther(log, CutVersions(log, 0, cfg)[0]);
    var sent := Sent(log, 0, cfg);
    assert sent == [EventFrame(1, Upsert(a))];
    var one := Edge(Some(Snapshot(1, map[a.principalId := a])), 1);
    assert Receive(Edge(None, 0), sent[0]) == Ok(one);
    assert sent[1..] == [];
    assert ReceiveAll(Edge(None, 0), sent) == ReceiveAll(one, sent[1..]) == one;
    ReceiveAllSnoc(Edge(None, 0), sent, 2);
    assert log[..1] + [Upsert(b)] == log && log[..2] == log;
    ReplayAppend(log[..1], Upsert(b));
    assert b.principalId in Replay(log[..2]);
  }
}
