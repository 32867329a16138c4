/** The sample rows of acknowledged denies over whole runs, crashes included: when the row is the decision's own. */
module DeliverySamples {
  import opened Text
  import opened WalLog
  import opened Wal
  import opened WalReopen
  import opened WalRuns
  import opened Ingest
  import opened Delivery

  // ----- Rows stay -----

  lemma StepKeepsRows(cfg: Config, digest: Digest, s: System, step: Step, s': System)
    requires Next(cfg, digest, s, step, s')
    ensures forall k :: k in s.tables.samples ==>
              k in s'.tables.samples && s'.tables.samples[k] == s.tables.samples[k]
  {
    hide Apply;
    hide CanApply;
    hide Append;
    hide AckThrough;
    hide BuildBatch;
    hide Pending;
    if step.Arrive? { InsertedSamples(s.tables.samples, SamplesOf(step.b.decisions, step.rate)); }
  }

  /** A sample row once written never changes. */
  lemma {:induction false} RowsStay(cfg: Config, digest: Digest, run: seq<System>, i: nat, j: nat, k: int)
    requires IsRun(cfg, digest, run) && i <= j < |run| && k in run[i].tables.samples
    ensures k in run[j].tables.samples && run[j].tables.samples[k] == run[i].tables.samples[k]
    decreases j
  {
    hide Next;
    if i < j {
      RowsStay(cfg, digest, run, i, j - 1, k);
      assert NextAt(cfg, digest, run, j);
      var step :| Next(cfg, digest, run[j-1], step, run[j]);
      StepKeepsRows(cfg, digest, run[j-1], step, run[j]);
    }
  }

  /** k is acked, and the decision it was issued to is a deny. */
  predicate AckedDeny(s: System, k: int) {
    k in s.acked && k in s.issued && s.issued[k].action.Deny?
  }

  /** The sample row under k is that of the decision k is issued to. */
  predicate OwnRow(s: System, k: int) {
    k in s.issued && k in s.tables.samples && s.tables.samples[k] == RowOf(s.issued[k])
  }

  /** In every reachable state an acked deny has a sample row, of some decision delivered under its number. */
  lemma AckedDenyHasRow(cfg: Config, digest: Digest, run: seq<System>, i: nat, k: int)
    requires Collisionfree(digest) && IsRun(cfg, digest, run) && i < |run| && AckedDeny(run[i], k)
    ensures k in run[i].tables.samples && RowDelivered(run[i].committed, k, run[i].tables.samples[k])
  {
    hide IsRun;
    hide Inv;
    hide RowDelivered;
    RunInv(cfg, digest, run, i);
    var s := run[i];
    var b :| b in s.committed && s.issued[k] in b.decisions;
    assert s.issued[k].walSeq in s.tables.samples;
  }

  /**
    A number that had a sample row at some point of the run, such as when a crash lost it: whenever it is an acked deny
    later, the row is its own if and only if it reads the same as the row there was.
   */
  lemma ReusedNumberIff(cfg: Config, digest: Digest, run: seq<System>, i: nat, j: nat, k: int)
    requires Collisionfree(digest) && IsRun(cfg, digest, run) && i <= j < |run|
    requires k in run[i].tables.samples && AckedDeny(run[j], k)
    ensures OwnRow(run[j], k) <==> RowOf(run[j].issued[k]) == run[i].tables.samples[k]
  {
    RowsStay(cfg, digest, run, i, j, k);
  }

  // ----- Numbers that no crash loses after they were sent -----

  ghost predicate WasSent(s: System, k: int) {
    exists b, d: Decision :: b in s.sent && d in b.decisions && d.walSeq == k
  }

  /** Every request ever sent that holds number k holds what k is issued to now. */
  ghost predicate SentGenuine(s: System, k: int) {
    forall b, d: Decision :: b in s.sent && d in b.decisions && d.walSeq == k ==> Genuine(s.issued, d)
  }

  /** The step that led to state m did not take number k back after it had been sent. */
  ghost predicate Spared(run: seq<System>, m: nat, k: int)
    requires 0 < m < |run|
  {
    WasSent(run[m-1], k) ==> k in run[m].issued
  }

  lemma StepKeepsGenuine(cfg: Config, digest: Digest, s: System, step: Step, s': System, k: int)
    requires SysInv(cfg, digest, s) && SysInv(cfg, digest, s') && Next(cfg, digest, s, step, s')
    requires SentGenuine(s, k) && (WasSent(s, k) ==> k in s'.issued)
    ensures SentGenuine(s', k)
  {
    hide Inv;
    hide Append;
    hide AckThrough;
    hide TablesOk;
    hide AckedOk;
    hide Ingests;
    hide Apply;
    hide CanApply;
    forall b, d: Decision | b in s'.sent && d in b.decisions && d.walSeq == k ensures Genuine(s'.issued, d) {
      if b in s.sent {
        assert Genuine(s.issued, d) && WasSent(s, k);
        assert k < s.node.log.nextSeq;
      } else {
        assert s'.inflight == Some(b) && InflightOk(s', b);
        var i :| 0 <= i < |b.decisions| && b.decisions[i] == d;
      }
    }
  }

  lemma {:induction false} RunKeepsGenuine(cfg: Config, digest: Digest, run: seq<System>, i: nat, k: int)
    requires Collisionfree(digest) && IsRun(cfg, digest, run) && i < |run|
    requires forall m :: 0 < m <= i ==> Spared(run, m, k)
    ensures SentGenuine(run[i], k)
  {
    hide Next;
    hide SysInv;
    if i > 0 {
      RunKeepsGenuine(cfg, digest, run, i - 1, k);
      RunInv(cfg, digest, run, i - 1);
      RunInv(cfg, digest, run, i);
      assert NextAt(cfg, digest, run, i) && Spared(run, i, k);
      var step :| Next(cfg, digest, run[i-1], step, run[i]);
      StepKeepsGenuine(cfg, digest, run[i-1], step, run[i], k);
    }
  }

  /** An acked deny whose number no crash took back after it was sent has its own sample row. */
  lemma AckedDenySampled(cfg: Config, digest: Digest, run: seq<System>, i: nat, k: int)
    requires Collisionfree(digest) && IsRun(cfg, digest, run) && i < |run| && AckedDeny(run[i], k)
    requires forall m :: 0 < m <= i ==> Spared(run, m, k)
    ensures OwnRow(run[i], k)
  {
    hide IsRun;
    hide SentOk;
    hide TablesOk;
    hide AckedOk;
    hide LogOk;
    hide Accounted;
    hide RowDelivered;
    AckedDenyHasRow(cfg, digest, run, i, k);
    RunKeepsGenuine(cfg, digest, run, i, k);
    RunInv(cfg, digest, run, i);
    GenuineRow(run[i], k);
  }

  lemma GenuineRow(s: System, k: int)
    requires TablesOk(s) && SentGenuine(s, k) && k in s.issued && k in s.tables.samples
    requires RowDelivered(s.committed, k, s.tables.samples[k])
    ensures OwnRow(s, k)
  {
    var d: Decision :| d.walSeq == k && RowOf(d) == s.tables.samples[k] && Delivered(s.committed, d);
    var b :| b in s.committed && d in b.decisions;
    hide RowDelivered;
    hide CountAll;
    hide RowOf;
    assert b in s.sent;
  }

  // ----- A number issued twice -----

  /** The log after its first record. */
  function Logged(cfg: Config, r: Decision): Log {
    Add(FreshLog(), Entry(r, LineBytes(cfg, r)))
  }

  /** A deny that a new log accepts as its first record and the control plane as a batch of one. */
  predicate FirstDeny(cfg: Config, r: Decision) {
    && r.walSeq == 1 && r.action.Deny? && r.fingerprint != []
    && LineBytes(cfg, r) <= MAX_LINE_BYTES && LineBytes(cfg, r) <= cfg.maxBytes
  }

  lemma FirstRecord(cfg: Config, r: Decision)
    requires FirstDeny(cfg, r) && cfg.maxAge < 0
    ensures Append(cfg, false, FreshLog(), r, Some(r.decidedAt), 0) == (Logged(cfg, r), Appended)
    ensures Stamped(FreshLog(), r, Some(r.decidedAt), 0) == r
    ensures Logged(cfg, r).entries == [Entry(r, LineBytes(cfg, r))] && Logged(cfg, r).nextSeq == 2
    ensures Pending(Logged(cfg, r), 1) == [r]
  {
  }

  lemma FreshReopens(cfg: Config)
    requires cfg.maxAge < 0 && cfg.maxBytes >= 0
    ensures Reopen(cfg, false, FreshLog().file, FreshLog().image, 0) == Ok(FreshLog())
  {
    FreshInv(cfg);
    ReopenIsSettle(cfg, false, FreshLog(), 0);
    assert Sized(cfg, Recs(FreshLog().entries)) == [];
    assert Resized(cfg, FreshLog()) == FreshLog();
  }

  lemma FirstAcked(cfg: Config, r: Decision)
    requires FirstDeny(cfg, r)
    ensures AckThrough(Logged(cfg, r), 1).entries == [] && AckThrough(Logged(cfg, r), 1).nextSeq == 2
  {
    var w := Logged(cfg, r);
    assert w.entries == [Entry(r, LineBytes(cfg, r))] && w.entries[1..] == [];
  }

  /** The tables after a batch of the one deny r. */
  function AfterBatch(t: Tables, b: Batch, r: Decision): Tables {
    Tables(t.batches[b.id := b.hash], Merge(t.aggregates, map key | key in KeysOf(r) :: 1),
           if r.walSeq in t.samples then t.samples else t.samples[r.walSeq := RowOf(r)])
  }

  lemma OneDenySampled(t: map<int, SampleRow>, r: Decision)
    requires r.action.Deny?
    ensures SamplesOf([r], 0.0) == [r]
    ensures InsertSamples(t, [r]) == if r.walSeq in t then t else t[r.walSeq := RowOf(r)]
  {
    assert [r][..0] == [];
    assert SamplesOf([r][..0], 0.0) == [] && InsertSamples(t, [r][..0]) == t;
  }

  lemma OneDenyCounted(t: map<AggKey, nat>, r: Decision, key: AggKey)
    ensures CountAt(Merge(t, map k | k in KeysOf(r) :: 1), key) == CountAt(t, key) + Count([r], key)
  {
    hide KeysOf;
    assert [r][..0] == [] && Count([r][..0], key) == 0;
  }

  lemma OneDenyIngested(cfg: Config, digest: Digest, t: Tables, r: Decision)
    requires FirstDeny(cfg, r) && digest.id(digest.hash([r])) !in t.batches
    ensures var b := BuildBatch(digest, [r]); Ingests(digest, t, b, 0.0, AfterBatch(t, b, r), Accepted(1, 1))
  {
    hide KeysOf;
    hide Merge;
    hide CountAt;
    hide Count;
    hide RowOf;
    hide SamplesOf;
    hide InsertSamples;
    var b := BuildBatch(digest, [r]);
    OneDenySampled(t.samples, r);
    forall key { OneDenyCounted(t.aggregates, r, key); }
    assert Stored(t, AfterBatch(t, b, r), b, 0.0);
  }

  function Begin(): System {
    System(Node(FreshLog(), false, false), None, {}, {}, Tables(map[], map[], map[]), [], map[], {}, {})
  }

  /** The states after recording, sending and storing r as number 1, from a state whose log is new. */
  function Recorded(cfg: Config, s: System, r: Decision): System {
    s.(node := Node(Logged(cfg, r), false, false), issued := map[1 := r])
  }

  function Requested(digest: Digest, s: System, r: Decision): System {
    var b := BuildBatch(digest, [r]); s.(inflight := Some(b), sent := s.sent + {b})
  }

  function Arrived(digest: Digest, s: System, r: Decision): System {
    var b := BuildBatch(digest, [r]);
    s.(tables := AfterBatch(s.tables, b, r), answered := s.answered + {b}, committed := s.committed + [b])
  }

  ghost predicate Anew(s: System) {
    && s.node == Node(FreshLog(), false, false) && s.inflight == None
    && s.issued == map[] && s.acked == {} && s.dropped == {}
  }

  lemma RecordSendArrive(cfg: Config, digest: Digest, s: System, r: Decision)
    requires Anew(s) && FirstDeny(cfg, r) && cfg.maxAge < 0 && digest.id(digest.hash([r])) !in s.tables.batches
    ensures var s1 := Recorded(cfg, s, r);
            var s2 := Requested(digest, s1, r);
            && CanStep(cfg, digest, s, s1) && CanStep(cfg, digest, s1, s2)
            && CanStep(cfg, digest, s2, Arrived(digest, s2, r))
  {
    hide Append;
    hide Logged;
    hide AfterBatch;
    hide Ingests;
    hide Pending;
    FirstRecord(cfg, r);
    OneDenyIngested(cfg, digest, s.tables, r);
    var s1 := Recorded(cfg, s, r);
    var s2 := Requested(digest, s1, r);
    var b := BuildBatch(digest, [r]);
    assert Range(1, 1) == {} && s.dropped + {} == s.dropped;
    assert s.issued[1 := r] == map[1 := r];
    assert Next(cfg, digest, s, Record(r, Some(r.decidedAt), 0), s1);
    assert Next(cfg, digest, s1, Send(1), s2);
    assert Next(cfg, digest, s2, Arrive(b, 0.0, Accepted(1, 1)), Arrived(digest, s2, r));
  }

  /** Losing everything. */
  lemma CrashToFresh(cfg: Config, digest: Digest, s: System, r: Decision)
    requires FirstDeny(cfg, r) && cfg.maxAge < 0 && s.node == Node(Logged(cfg, r), false, false)
    requires s.issued == map[1 := r] && s.acked == {} && s.dropped == {}
    ensures CanStep(cfg, digest, s, Lost(s)) && Anew(Lost(s))
  {
    FirstRecord(cfg, r);
    FreshInv(cfg);
    FreshReopens(cfg);
    hide Reopen;
    hide Logged;
    hide Mirrors;
    var w := FreshLog();
    assert Sound(w) && FallsBack(s, w);
    var mid := AfterCrash(s, w);
    var s' := Lost(s);
    assert mid.issued == map[] && mid.acked == {} && mid.dropped == {};
    assert mid == s';
    assert Range(1, 1) == {} && s'.dropped + {} == s'.dropped;
    assert Restarts(cfg, mid, 0, s');
    assert Next(cfg, digest, s, Crash(w, 0), s');
  }

  /** Recording, sending and storing r on top of s, whose log is new. */
  function Deposited(cfg: Config, digest: Digest, s: System, r: Decision): System {
    Arrived(digest, Requested(digest, Recorded(cfg, s, r), r), r)
  }

  function Lost(s: System): System {
    s.(node := Node(FreshLog(), false, false), inflight := None, issued := map[])
  }

  function Confirmed(cfg: Config, s: System, r: Decision): System {
    s.(node := s.node.(log := AckThrough(Logged(cfg, r), 1)), inflight := None, acked := {1})
  }

  lemma StepsMakeRun(cfg: Config, digest: Digest, run: seq<System>)
    requires run != [] && Init(cfg, run[0])
    requires forall i :: 0 < i < |run| ==> CanStep(cfg, digest, run[i-1], run[i])
    ensures IsRun(cfg, digest, run)
  {
    hide CanStep;
    hide Init;
  }

  /**
    The failing run: a deny is recorded, sent and stored, a crash loses it, and another deny takes its number, is sent,
    stored and confirmed. The sample row of the acked deny is that of the first one, for good.
   */
  lemma ReusedNumberRun(cfg: Config, digest: Digest, a: Decision, b: Decision) returns (run: seq<System>)
    requires FirstDeny(cfg, a) && FirstDeny(cfg, b) && cfg.maxAge < 0 && RowOf(a) != RowOf(b)
    requires digest.id(digest.hash([a])) != digest.id(digest.hash([b]))
    ensures IsRun(cfg, digest, run) && |run| == 9
    ensures AckedDeny(run[8], 1) && run[8].issued[1] == b && run[8].tables.samples == map[1 := RowOf(a)]
    ensures !OwnRow(run[8], 1)
  {
    hide Logged;
    hide AckThrough;
    hide CanStep;
    hide RowOf;
    hide Merge;
    hide KeysOf;
    hide FreshLog;
    assert LineBytes(cfg, a) >= 0;
    var s0 := Begin();
    RecordSendArrive(cfg, digest, s0, a);
    var s3 := Deposited(cfg, digest, s0, a);
    CrashToFresh(cfg, digest, s3, a);
    var s4 := Lost(s3);
    RecordSendArrive(cfg, digest, s4, b);
    var s7 := Deposited(cfg, digest, s4, b);
    ConfirmFirst(cfg, digest, s7, b);
    var s1, s5 := Recorded(cfg, s0, a), Recorded(cfg, s4, b);
    run := [s0, s1, Requested(digest, s1, a), s3, s4, s5, Requested(digest, s5, b), s7, Confirmed(cfg, s7, b)];
    StepsMakeRun(cfg, digest, run);
  }

  lemma ConfirmFirst(cfg: Config, digest: Digest, s: System, r: Decision)
    requires FirstDeny(cfg, r) && s.node == Node(Logged(cfg, r), false, false) && s.acked == {}
    requires s.inflight == Some(BuildBatch(digest, [r])) && BuildBatch(digest, [r]) in s.answered
    ensures CanStep(cfg, digest, s, Confirmed(cfg, s, r))
  {
    FirstAcked(cfg, r);
    hide AckThrough;
    assert s.acked + Range(1, 2) == {1};
    assert Next(cfg, digest, s, Confirm, Confirmed(cfg, s, r));
  }
}
