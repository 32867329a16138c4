/**
  Why a crash of the edge falls back as the delivery state machine says: the log's crash theorem over delivery runs.
 */
module DeliveryCrash {
  import opened Text
  import opened WalLog
  import opened Wal
  import opened WalReopen
  import opened WalRuns
  import opened Ingest
  import opened Delivery

  // ----- What single-line steps do to the live numbers -----

  /** Numbers only grow from w to w', and those w had issued keep their records. */
  ghost predicate Follows(w: Log, w': Log) {
    && w.nextSeq <= w'.nextSeq && Low(w) <= Low(w')
    && forall r :: r in Recs(w'.entries) && r.walSeq < w.nextSeq ==> r in Recs(w.entries)
  }

  lemma MicroRecs(cfg: Config, w: Log, w': Log)
    requires Micro(cfg, w, w')
    ensures Follows(w, w')
  {
    hide Sum;
    hide Write;
    if w' == Resized(cfg, w) {
      assert Recs(w'.entries) == Recs(w.entries);
    } else if w' != w && w' != Compact(w) {
      if k: nat, through :| Separates(w, k, through) && w' == Remove(w, k, through) {
        RecsTail(w.entries, k);
      } else {
        var e: Entry :| Fits(cfg, w, e) && w' == Add(w, e);
        assert Recs(w'.entries) == Recs(w.entries) + [e.rec];
      }
    }
  }

  lemma {:induction false} TraceRecs(cfg: Config, t: seq<Log>, i: nat, j: nat)
    requires IsTrace(cfg, t) && i <= j < |t|
    ensures Follows(t[i], t[j])
    decreases j
  {
    hide Micro;
    if i < j {
      TraceRecs(cfg, t, i, j - 1);
      assert MicroAt(cfg, t, j);
      MicroRecs(cfg, t[j-1], t[j]);
    }
  }

  ghost predicate EntriesGenuine(issued: map<int, Decision>, w: Log) {
    forall r :: r in Recs(w.entries) ==> Genuine(issued, r)
  }

  ghost predicate TraceGenuine(issued: map<int, Decision>, t: seq<Log>) {
    forall m :: 0 <= m < |t| ==> EntriesGenuine(issued, t[m])
  }

  lemma SoundNumbers(w: Log)
    requires Sound(w)
    ensures forall r :: r in Recs(w.entries) ==> Low(w) <= r.walSeq < w.nextSeq
    ensures forall r, q :: r in Recs(w.entries) && q in Recs(w.entries) && r.walSeq == q.walSeq ==> r == q
  {
    hide Mirrors;
  }

  lemma LiveRecord(w: Log, n: int) returns (r: Decision)
    requires Sound(w) && Low(w) <= n < w.nextSeq
    ensures r in Recs(w.entries) && r.walSeq == n
  {
    hide Mirrors;
    r := Recs(w.entries)[n - Low(w)];
  }

  /**
    If both ends hold what was issued, and the last state still holds every number issued in between, so do all
    states.
   */
  lemma SegmentGenuine(cfg: Config, t: seq<Log>, issued: map<int, Decision>, m: nat)
    requires m < |t| && IsTrace(cfg, t) && Sound(t[0])
    requires EntriesGenuine(issued, t[0]) && EntriesGenuine(issued, Last(t)) && Low(Last(t)) <= t[0].nextSeq
    ensures EntriesGenuine(issued, t[m])
  {
    hide IsTrace;
    hide Sound;
    hide Follows;
    hide EntriesGenuine;
    hide Low;
    TraceKeeps(cfg, t, m);
    TraceKeeps(cfg, t, |t| - 1);
    TraceRecs(cfg, t, 0, m);
    TraceRecs(cfg, t, m, |t| - 1);
    MiddleGenuine(issued, t[0], t[m], Last(t));
  }

  lemma MiddleGenuine(issued: map<int, Decision>, first: Log, w: Log, last: Log)
    requires Sound(w) && Sound(last) && Follows(first, w) && Follows(w, last) && Low(last) <= first.nextSeq
    requires EntriesGenuine(issued, first) && EntriesGenuine(issued, last)
    ensures EntriesGenuine(issued, w)
  {
    hide Sound;
    hide Recs;
    SoundNumbers(w);
    forall r | r in Recs(w.entries) ensures Genuine(issued, r) {
      if r.walSeq >= first.nextSeq {
        var q := LiveRecord(last, r.walSeq);
        assert q in Recs(w.entries);
      }
    }
  }

  lemma TraceJoin(cfg: Config, a: seq<Log>, b: seq<Log>)
    requires IsTrace(cfg, a) && IsTrace(cfg, b) && Last(a) == b[0]
    ensures a != [] && b != [] && IsTrace(cfg, a + b[1..]) && Last(a + b[1..]) == Last(b)
  {
    hide Micro;
    var t := a + b[1..];
    forall i | 0 < i < |t| ensures MicroAt(cfg, t, i) {
      if i < |a| { assert MicroAt(cfg, a, i); } else { assert MicroAt(cfg, b, i - |a| + 1); }
    }
  }

  // ----- Runs before the crash -----

  ghost predicate Calm(cfg: Config, digest: Digest, s: System, s': System) {
    exists step: Step :: !step.Crash? && Next(cfg, digest, s, step, s')
  }

  ghost predicate CalmAt(cfg: Config, digest: Digest, run: seq<System>, i: nat)
    requires 0 < i < |run|
  {
    Calm(cfg, digest, run[i-1], run[i])
  }

  /** A run without a crash. */
  ghost predicate IsCalmRun(cfg: Config, digest: Digest, run: seq<System>) {
    run != [] && Init(cfg, run[0]) && forall i :: 0 < i < |run| ==> CalmAt(cfg, digest, run, i)
  }

  lemma CalmIsRun(cfg: Config, digest: Digest, run: seq<System>)
    requires IsCalmRun(cfg, digest, run)
    ensures IsRun(cfg, digest, run)
  {
    hide Next;
    forall i | 0 < i < |run| ensures NextAt(cfg, digest, run, i) { assert CalmAt(cfg, digest, run, i); }
  }

  /** One step of the system as a trace of the log's own steps. */
  lemma CalmStepTrace(cfg: Config, digest: Digest, s: System, step: Step, s': System) returns (t: seq<Log>)
    requires SysInv(cfg, digest, s) && Next(cfg, digest, s, step, s') && !step.Crash?
    ensures IsTrace(cfg, t) && t[0] == s.node.log && Last(t) == s'.node.log
  {
    hide SysInv;
    hide IsTrace;
    hide Ingests;
    hide Append;
    hide AckThrough;
    hide Reopen;
    LogGenuine(cfg, digest, s);
    OneLog(cfg, s.node.log);
    t := [s.node.log];
    match step {
      case Record(d, decidedAt, now) => t := AppendTrace(cfg, s.node.noDrop, t, d, decidedAt, now);
      case Restart(now) => t := RestartTrace(cfg, s.node.forcedNoDrop, t, now);
      case Confirm =>
        ConfirmIssued(cfg, digest, s);
        t := AckTrace(cfg, t, s.inflight.value.last);
      case _ =>
    }
  }

  lemma ConfirmIssued(cfg: Config, digest: Digest, s: System)
    requires SysInv(cfg, digest, s) && s.inflight.Some?
    ensures s.inflight.value.last < s.node.log.nextSeq
  {
    hide Inv;
    var b := s.inflight.value;
    assert BatchOk(digest, b);
    assert Genuine(s.issued, b.decisions[|b.decisions|-1]);
  }

  /** What was issued stays issued, and every number issued by the step is live after it. */
  lemma CalmStepIssues(cfg: Config, digest: Digest, s: System, step: Step, s': System)
    requires SysInv(cfg, digest, s) && Next(cfg, digest, s, step, s') && !step.Crash?
    ensures forall k :: k in s.issued ==> k in s'.issued && s'.issued[k] == s.issued[k]
    ensures Low(s'.node.log) <= s.node.log.nextSeq
  {
    hide Inv;
    hide Append;
    hide AckThrough;
    hide Reopen;
    hide Ingests;
    LowPositive(cfg.maxBytes, s.node.log);
    match step {
      case Record(d, decidedAt, now) =>
        var _ := AppendShape(cfg, s.node.noDrop, s.node.log, d, decidedAt, now);
      case Restart(now) =>
        LogParts(cfg, digest, s);
        var _ := ReopenShape(cfg, s.node.forcedNoDrop, s.node.log, now);
      case Confirm =>
        var _ := AckShape(s.node.log, s.inflight.value.last);
      case _ =>
    }
  }

  lemma LogGenuine(cfg: Config, digest: Digest, s: System)
    requires SysInv(cfg, digest, s)
    ensures Inv(cfg.maxBytes, s.node.log) && Sound(s.node.log) && EntriesGenuine(s.issued, s.node.log)
  {
  }

  /** The log's own steps over a whole run, all of them holding what was issued. */
  lemma {:induction false} CalmTrace(cfg: Config, digest: Digest, run: seq<System>, i: nat) returns (t: seq<Log>)
    requires Collisionfree(digest) && IsCalmRun(cfg, digest, run) && i < |run|
    ensures IsTrace(cfg, t) && t[0] == FreshLog() && Last(t) == run[i].node.log && TraceGenuine(run[i].issued, t)
    decreases i
  {
    hide Next;
    hide SysInv;
    hide Sound;
    hide IsTrace;
    if i == 0 {
      t := [FreshLog()];
      OneLog(cfg, FreshLog());
    } else {
      t := CalmTrace(cfg, digest, run, i - 1);
      CalmIsRun(cfg, digest, run);
      RunInv(cfg, digest, run, i - 1);
      RunInv(cfg, digest, run, i);
      var s, s' := run[i-1], run[i];
      assert CalmAt(cfg, digest, run, i);
      var step: Step :| !step.Crash? && Next(cfg, digest, s, step, s');
      var more := CalmStepTrace(cfg, digest, s, step, s');
      CalmStepIssues(cfg, digest, s, step, s');
      LogGenuine(cfg, digest, s);
      LogGenuine(cfg, digest, s');
      forall m | 0 <= m < |more| ensures EntriesGenuine(s'.issued, more[m]) {
        SegmentGenuine(cfg, more, s'.issued, m);
      }
      TraceJoin(cfg, t, more);
      JoinGenuine(s.issued, s'.issued, t, more);
      t := t + more[1..];
    }
  }

  lemma JoinGenuine(issued: map<int, Decision>, issued': map<int, Decision>, a: seq<Log>, b: seq<Log>)
    requires TraceGenuine(issued, a) && TraceGenuine(issued', b) && a != [] && b != []
    requires forall k :: k in issued ==> k in issued' && issued'[k] == issued[k]
    ensures TraceGenuine(issued', a + b[1..])
  {
    var t := a + b[1..];
    forall m | 0 <= m < |t| ensures EntriesGenuine(issued', t[m]) {
      if m < |a| { assert EntriesGenuine(issued, a[m]); } else { assert EntriesGenuine(issued', b[m - |a| + 1]); }
    }
  }

  /**
    Whatever a crash leaves of the lines written since the last compaction, the file loads to the records and next
    number of a log that the system can fall back to; cut at a line end, it is that log's own file.
   */
  lemma CrashFallsBack(cfg: Config, digest: Digest, run: seq<System>, i: nat, d: Damage) returns (w: Log)
    requires Collisionfree(digest) && IsCalmRun(cfg, digest, run) && i < |run|
    requires run[i].node.log.image <= d.kept <= |run[i].node.log.file.tokens|
    ensures FallsBack(run[i], w)
    ensures Load(Crashed(run[i].node.log.file, d)) == Ok(Loaded(Recs(w.entries), w.nextSeq))
    ensures d.AtLine? ==> w.file == Crashed(run[i].node.log.file, d)
  {
    hide Inv;
    hide Micro;
    hide IsCalmRun;
    hide Load;
    var t := CalmTrace(cfg, digest, run, i);
    RunStart(cfg, digest, run);
    var j := CrashRecovers(cfg, t, d);
    w := t[j];
    TraceKeeps(cfg, t, j);
    TraceRecs(cfg, t, j, |t| - 1);
    assert EntriesGenuine(run[i].issued, w);
    assert forall m :: 0 <= m < |w.entries| ==> w.entries[m].rec == Recs(w.entries)[m];
  }

  lemma RunStart(cfg: Config, digest: Digest, run: seq<System>)
    requires IsCalmRun(cfg, digest, run)
    ensures Sound(FreshLog()) && FreshLog().image == |FreshLog().file.tokens|
  {
    FreshInv(cfg);
  }
}
