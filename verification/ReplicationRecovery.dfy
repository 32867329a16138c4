/** What saving, restarting, streaming and snapshot recovery achieve for the edge, over runs of the state machine. */
module ReplicationRecovery {
  import opened Text
  import opened ScoreLog
  import opened EdgeStore
  import opened SseSession
  import opened Replication

  // ----- Saving and restarting -----

  /** Step k could have been a save: the edge's own, or the one after a recovery. */
  ghost predicate SavedAt(cfg: Config, run: seq<System>, k: nat) {
    && 0 < k < |run|
    && (Next(cfg, run[k-1], Persist, run[k]) || Next(cfg, run[k-1], ApplyRecovery(true), run[k]))
  }

  lemma NoSaveKeepsDisk(cfg: Config, s: System, step: Step, s': System)
    requires Next(cfg, s, step, s') && step != Persist && step != ApplyRecovery(true)
    ensures s'.disk == s.disk
  {
    hide Emit;
    hide Batch;
    hide Receive;
  }

  lemma {:induction false} DiskStays(cfg: Config, run: seq<System>, i: nat, j: nat)
    requires IsRun(cfg, run) && i <= j < |run| && forall k :: i < k <= j ==> !SavedAt(cfg, run, k)
    ensures run[j].disk == run[i].disk
    decreases j
  {
    hide Next;
    if i < j {
      DiskStays(cfg, run, i, j - 1);
      assert StepAt(cfg, run, j) && !SavedAt(cfg, run, j);
      var step :| Next(cfg, run[j-1], step, run[j]);
      NoSaveKeepsDisk(cfg, run[j-1], step, run[j]);
    }
  }

  lemma SaveWrites(cfg: Config, run: seq<System>, i: nat)
    requires SavedAt(cfg, run, i)
    ensures run[i].disk == Some(Snapshot(run[i].edge.hw, Scores(run[i].edge)))
  {
  }

  lemma RestartReads(cfg: Config, s: System, s': System)
    requires Next(cfg, s, Restart, s')
    ensures s.disk.Some? ==> s'.edge.hw == s.disk.value.highWater && Scores(s'.edge) == s.disk.value.scores
    ensures s.disk.None? ==> s'.edge.hw == 0 && Scores(s'.edge) == map[]
  {
  }

  /** After a restart the edge has the high water and the scores it had right after the last save. */
  lemma RestartRestores(cfg: Config, run: seq<System>, i: nat, j: nat)
    requires IsRun(cfg, run) && i < j < |run| && SavedAt(cfg, run, i) && Restarted(cfg, run, j)
    requires forall k :: i < k < j ==> !SavedAt(cfg, run, k)
    ensures run[j].edge.hw == run[i].edge.hw && Scores(run[j].edge) == Scores(run[i].edge)
  {
    hide Next;
    SaveWrites(cfg, run, i);
    DiskStays(cfg, run, i, j - 1);
    RestartReads(cfg, run[j-1], run[j]);
  }

  /** With nothing ever saved, a restart leaves the edge without scores at version 0. */
  lemma RestartUnsaved(cfg: Config, run: seq<System>, j: nat)
    requires IsRun(cfg, run) && Restarted(cfg, run, j) && forall k :: 0 < k < j ==> !SavedAt(cfg, run, k)
    ensures run[j].edge.hw == 0 && Scores(run[j].edge) == map[]
  {
    hide Next;
    DiskStays(cfg, run, 0, j - 1);
    RestartReads(cfg, run[j-1], run[j]);
  }

  // ----- Every reachable edge can be saved -----

  predicate NoEmptyIds(s: System) {
    && [] !in Scores(s.edge)
    && (s.recovering.Some? ==> [] !in s.recovering.value.scores)
    && (s.disk.Some? ==> [] !in s.disk.value.scores)
  }

  lemma ReceiveNoEmptyId(edge: Edge, f: Frame)
    requires [] !in Scores(edge) && Receive(edge, f).Ok?
    ensures [] !in Scores(Receive(edge, f).value)
  {
    if f.EventFrame? { AppliedMeaning(edge, f.version, f.event); }
  }

  lemma NextNoEmptyIds(cfg: Config, s: System, step: Step, s': System)
    requires NoEmptyIds(s) && Next(cfg, s, step, s')
    ensures NoEmptyIds(s')
  {
    hide Emit;
    hide Batch;
    hide Receive;
    if step.Deliver? && Receive(s.edge, s.session.value.queued[0]).Ok? {
      ReceiveNoEmptyId(s.edge, s.session.value.queued[0]);
    }
  }

  lemma {:induction false} RunNoEmptyIds(cfg: Config, run: seq<System>, i: nat)
    requires IsRun(cfg, run) && i < |run|
    ensures NoEmptyIds(run[i])
  {
    hide Next;
    if i > 0 {
      RunNoEmptyIds(cfg, run, i - 1);
      assert StepAt(cfg, run, i);
      var step :| Next(cfg, run[i-1], step, run[i]);
      NextNoEmptyIds(cfg, run[i-1], step, run[i]);
    }
  }

  /** In every reachable state the edge's scores are a table a snapshot file can hold: keyed by id, no id empty. */
  lemma EdgeCanBeSaved(cfg: Config, run: seq<System>, i: nat)
    requires IsRun(cfg, run) && i < |run|
    ensures WellKeyed(Scores(run[i].edge)) && [] !in Scores(run[i].edge)
  {
    RunNoEmptyIds(cfg, run, i);
    EdgeAgrees(cfg, run, i);
    ReplayWellKeyed(run[i].log[..run[i].edge.hw]);
  }

  // ----- Catching up -----

  /** A stretch of steps, from any state. */
  ghost predicate IsPath(cfg: Config, path: seq<System>) {
    path != [] && forall i :: 0 < i < |path| ==> StepAt(cfg, path, i)
  }

  ghost predicate LeadsTo(cfg: Config, s: System, s': System) {
    exists path :: IsPath(cfg, path) && path[0] == s && path[|path|-1] == s'
  }

  lemma LeadsOn(cfg: Config, s: System, step: Step, t: System, u: System)
    requires Next(cfg, s, step, t) && LeadsTo(cfg, t, u)
    ensures LeadsTo(cfg, s, u)
  {
    hide Next;
    var path :| IsPath(cfg, path) && path[0] == t && path[|path|-1] == u;
    var longer := [s] + path;
    forall i | 0 < i < |longer| ensures StepAt(cfg, longer, i) {
      if i == 1 {
        assert CanStep(cfg, s, t);
      } else {
        assert StepAt(cfg, path, i - 1);
        assert longer[i-1] == path[i-2] && longer[i] == path[i-1];
      }
    }
    assert IsPath(cfg, longer) && longer[0] == s && longer[|longer|-1] == u;
  }

  lemma LeadsNowhere(cfg: Config, s: System)
    ensures LeadsTo(cfg, s, s)
  {
    assert IsPath(cfg, [s]) && [s][0] == s;
  }

  /** The edge is where the log ends and has the control plane's table. */
  predicate CaughtUp(s: System) {
    s.edge.hw == |s.log| && Scores(s.edge) == s.table
  }

  lemma AtLogEnd(s: System)
    requires SysInv(s) && s.edge.hw == |s.log|
    ensures CaughtUp(s)
  {
    assert s.log[..|s.log|] == s.log;
  }

  /** Delivering everything queued brings the edge to the last cursor the session emitted. */
  lemma {:induction false} DeliverAll(cfg: Config, s: System) returns (s': System)
    requires SysInv(s) && s.session.Some? && !s.session.value.aborted && AllApplicable(s.session.value.queued)
    ensures LeadsTo(cfg, s, s') && SysInv(s') && s'.log == s.log && s'.table == s.table
    ensures s'.edge.hw == s.session.value.lastEmittedHw
    decreases |s.session.value.queued|
  {
    hide Covered;
    hide LeadsTo;
    var q := s.session.value.queued;
    if q == [] {
      s' := s;
      EmptyCovered(s.log, s.edge.hw);
      LeadsNowhere(cfg, s);
    } else {
      var r := Receive(s.edge, q[0]);
      assert r.Ok?;
      var t := s.(edge := r.value, session := Some(s.session.value.(queued := q[1..])));
      assert Next(cfg, s, Deliver, t);
      NextKeeps(cfg, s, Deliver, t);
      s' := DeliverAll(cfg, t);
      LeadsOn(cfg, s, Deliver, t, s');
    }
  }

  /** No frame the edge would be sent is too large, and it can use every event. */
  ghost predicate Deliverable(cfg: Config, s: System, since: int) {
    && (forall f :: f in Sent(s.log, since, cfg) ==> !cfg.oversized(f))
    && AllApplicable(Sent(s.log, since, cfg))
  }

  lemma {:induction false} AllSendable(events: seq<Frame>, oversized: Frame -> bool)
    requires forall f :: f in events ==> !oversized(f)
    ensures Sendable(events, oversized) == |events|
  {
    if events != [] { AllSendable(events[1..], oversized); }
  }

  lemma EmitsAll(cfg: Config, s: System, before: Session, since: int)
    requires Deliverable(cfg, s, since) && AllApplicable(before.queued) && before.lastEmittedHw <= |s.log|
    ensures var after := Emit(before, Sent(s.log, since, cfg), |s.log|, cfg.oversized);
            after.aborted == before.aborted && after.lastEmittedHw == |s.log| && AllApplicable(after.queued)
  {
    hide Batch;
    AllSendable(Sent(s.log, since, cfg), cfg.oversized);
  }

  lemma EmptyApplicable()
    ensures AllApplicable([])
  {
  }

  /** An edge whose backlog is within the batch limit catches up by connecting and receiving what it is sent. */
  lemma ConnectCatchesUp(cfg: Config, s: System) returns (s': System)
    requires SysInv(s) && s.session.None? && s.recovering.None? && Deliverable(cfg, s, s.edge.hw)
    requires |Versions(s.log, s.edge.hw, |s.log|, cfg.tenant)| <= cfg.limit
    ensures LeadsTo(cfg, s, s') && s'.log == s.log && s'.table == s.table && CaughtUp(s')
  {
    hide Versions;
    hide LeadsTo;
    hide AllApplicable;
    var opening := Session(-1, [], false);
    EmptyApplicable();
    EmitsAll(cfg, s, opening, s.edge.hw);
    var t := s.(session := Some(Emit(opening, Sent(s.log, s.edge.hw, cfg), |s.log|, cfg.oversized)));
    assert Next(cfg, s, Connect, t);
    NextKeeps(cfg, s, Connect, t);
    hide Emit;
    s' := DeliverAll(cfg, t);
    LeadsOn(cfg, s, Connect, t, s');
    AtLogEnd(s');
  }

  /** A connected edge catches up with the next poll, unless the limit cuts off a score event. */
  lemma PollCatchesUp(cfg: Config, s: System) returns (s': System)
    requires SysInv(s) && s.session.Some? && !s.session.value.aborted && AllApplicable(s.session.value.queued)
    requires var since := s.session.value.lastEmittedHw; Deliverable(cfg, s, since) && CutSafe(s.log, since, cfg)
    ensures LeadsTo(cfg, s, s') && s'.log == s.log && s'.table == s.table && CaughtUp(s')
  {
    hide CutSafe;
    hide LeadsTo;
    hide AllApplicable;
    var before := s.session.value;
    SessionWithin(s.log, s.edge.hw, before.queued);
    EmitsAll(cfg, s, before, before.lastEmittedHw);
    var t := s.(session := Some(Emit(before, Sent(s.log, before.lastEmittedHw, cfg), |s.log|, cfg.oversized)));
    assert Next(cfg, s, Poll, t);
    NextKeeps(cfg, s, Poll, t);
    hide Emit;
    s' := DeliverAll(cfg, t);
    LeadsOn(cfg, s, Poll, t, s');
    AtLogEnd(s');
  }

  /** From every reachable state, dropping the stream and fetching a snapshot brings the edge to the log's end. */
  lemma SnapshotCatchesUp(cfg: Config, s: System, saved: bool) returns (s': System)
    requires SysInv(s) && [] !in s.table
    ensures LeadsTo(cfg, s, s') && s'.log == s.log && s'.table == s.table && CaughtUp(s')
    ensures saved ==> s'.disk == Some(Snapshot(|s.log|, s.table))
  {
    hide LeadsTo;
    var t := s.(session := None, recovering := None);
    var u := t.(recovering := Some(Snapshot(|s.log|, s.table)));
    s' := u.(edge := Edge(Some(Snapshot(|s.log|, s.table)), |s.log|), recovering := None,
             disk := if saved then Some(Snapshot(|s.log|, s.table)) else u.disk);
    assert Next(cfg, s, Disconnect, t);
    assert Next(cfg, t, FetchSnapshot, u);
    assert Next(cfg, u, ApplyRecovery(saved), s');
    LeadsNowhere(cfg, s');
    LeadsOn(cfg, u, ApplyRecovery(saved), s', s');
    LeadsOn(cfg, t, FetchSnapshot, u, s');
    LeadsOn(cfg, s, Disconnect, t, s');
  }
}
