/**
  End-to-end delivery of decisions as one state machine: the edge's log, the flush worker's batch in flight,
  a network that may delay, repeat or lose requests and replies, and the control plane's tables.
 */
module Delivery {
  import opened Text
  import opened WalLog
  import opened Wal
  import opened WalReopen
  import opened WalRuns
  import opened Ingest

  /**
    sent are the requests ever put on the network, answered those the control plane accepted or called duplicates,
    committed the batches stored, in order. issued, acked and dropped are history: what each number was given to,
    which numbers left by an acknowledgement, and which by capacity, age or a restart's limits.
   */
  datatype System = System(node: Node, inflight: Option<Batch>, sent: set<Batch>, answered: set<Batch>,
                           tables: Tables, committed: seq<Batch>,
                           issued: map<int, Decision>, acked: set<int>, dropped: set<int>)

  /** The oldest live number; the live numbers are Low up to nextSeq - 1. */
  function Low(w: Log): int {
    w.nextSeq - |w.entries|
  }

  function Range(a: int, b: int): (r: set<int>)
    ensures forall k :: k in r <==> a <= k < b
    decreases b - a
  {
    if a >= b then {} else {a} + Range(a + 1, b)
  }

  datatype Step =
    | Record(d: Decision, decidedAt: Option<int>, now: int)
    | SetPolicy(noDrop: bool)
    | Restart(now: int)
    | Send(limit: int)
    | Arrive(b: Batch, rate: real, r: IngestResult)
    | GiveUp
    | Confirm
    | Crash(w: Log, now: int)

  /**
    What a crash falls back to: the log as it was when some earlier line had been written, all of it still what was
    issued.
   */
  ghost predicate FallsBack(s: System, w: Log) {
    Sound(w) && Earlier(s, w)
  }

  ghost predicate Earlier(s: System, w: Log) {
    && Low(w) <= Low(s.node.log) && w.nextSeq <= s.node.log.nextSeq
    && forall i :: 0 <= i < |w.entries| ==> Genuine(s.issued, w.entries[i].rec)
  }

  /**
    A crash that loses the last lines of the file. Numbers that come back as live are no longer acked or dropped, and
    the lost numbers will be issued again.
   */
  function AfterCrash(s: System, w: Log): System {
    s.(node := s.node.(log := w), inflight := None,
       issued := map k | k in s.issued && k < w.nextSeq :: s.issued[k],
       acked := (set k | k in s.acked && k < Low(w)), dropped := (set k | k in s.dropped && k < Low(w)))
  }

  /** The edge's log changes and the numbers it lost without an acknowledgement are noted. */
  ghost predicate Loses(s: System, s': System) {
    s' == s.(node := s'.node, inflight := s'.inflight, issued := s'.issued,
             dropped := s.dropped + Range(Low(s.node.log), Low(s'.node.log)))
  }

  /** The edge starts again on the file of its log. */
  ghost predicate Restarts(cfg: Config, s: System, now: int, s': System) {
    && CanApply(cfg, s.node, DoRestart(now))
    && Loses(s, s') && s'.inflight == None && s'.issued == s.issued
    && s'.node == Apply(cfg, s.node, DoRestart(now))
  }

  ghost predicate Next(cfg: Config, digest: Digest, s: System, step: Step, s': System) {
    match step
    case Record(d, decidedAt, now) =>
      && Loses(s, s') && s'.inflight == s.inflight
      && s'.node == s.node.(log := Append(cfg, s.node.noDrop, s.node.log, d, decidedAt, now).0)
      && s'.issued == (if Append(cfg, s.node.noDrop, s.node.log, d, decidedAt, now).1.Appended?
                       then s.issued[s.node.log.nextSeq := Stamped(s.node.log, d, decidedAt, now)] else s.issued)
    case SetPolicy(noDrop) => s' == s.(node := Apply(cfg, s.node, DoSetNoDrop(noDrop)))
    case Restart(now) => Restarts(cfg, s, now, s')
    case Send(limit) =>
      && s.inflight == None && Pending(s.node.log, limit) != []
      && var b := BuildBatch(digest, Pending(s.node.log, limit));
         s' == s.(inflight := Some(b), sent := s.sent + {b})
    case Arrive(b, rate, r) =>
      && b in s.sent && Ingests(digest, s.tables, b, rate, s'.tables, r)
      && s' == s.(tables := s'.tables,
                  answered := if r.Accepted? || r.Duplicate? then s.answered + {b} else s.answered,
                  committed := if r.Accepted? then s.committed + [b] else s.committed)
    case GiveUp => s' == s.(inflight := None)
    case Confirm =>
      && s.inflight.Some? && s.inflight.value in s.answered
      && var log' := AckThrough(s.node.log, s.inflight.value.last);
         s' == s.(node := s.node.(log := log'), inflight := None, acked := s.acked + Range(Low(s.node.log), Low(log')))
    case Crash(w, now) => FallsBack(s, w) && Restarts(cfg, AfterCrash(s, w), now, s')
  }

  ghost predicate Init(cfg: Config, s: System) {
    && cfg.maxBytes >= 0 && s.node.log == FreshLog()
    && s == System(s.node, None, {}, {}, Tables(map[], map[], map[]), [], map[], {}, {})
  }

  // ----- The invariant -----

  ghost predicate Collisionfree(digest: Digest) {
    forall x, y :: digest.hash(x) == digest.hash(y) ==> x == y
  }

  /** d is the decision its number was issued to. */
  predicate Genuine(issued: map<int, Decision>, d: Decision) {
    d.walSeq in issued && issued[d.walSeq] == d
  }

  ghost predicate LogOk(cfg: Config, s: System) {
    Inv(cfg.maxBytes, s.node.log) && IssuedOk(s)
  }

  /** The numbers issued are those below the next, and every live record is what its number was issued to. */
  ghost predicate IssuedOk(s: System) {
    && (forall k :: k in s.issued <==> 1 <= k < s.node.log.nextSeq)
    && (forall k :: k in s.issued ==> s.issued[k].walSeq == k)
    && forall i :: 0 <= i < |s.node.log.entries| ==> Genuine(s.issued, s.node.log.entries[i].rec)
  }

  /** Every number below the live ones is acked or dropped, never both. */
  ghost predicate Accounted(s: System) {
    && s.acked !! s.dropped
    && forall k :: k in s.acked + s.dropped <==> 1 <= k < Low(s.node.log)
  }

  /** A batch as the edge builds it: consecutive numbers under the hash of its content. */
  ghost predicate BatchOk(digest: Digest, b: Batch) {
    && b.decisions != [] && b == BuildBatch(digest, b.decisions)
    && forall i :: 0 <= i < |b.decisions| ==> b.decisions[i].walSeq == b.first + i
  }

  /** Sent batches are well built; the one in flight holds what its numbers are issued to now. */
  ghost predicate SentOk(digest: Digest, s: System) {
    && (forall b :: b in s.sent ==> BatchOk(digest, b))
    && (s.inflight.Some? ==> s.inflight.value in s.sent && InflightOk(s, s.inflight.value))
    && s.answered <= s.sent
  }

  ghost predicate InflightOk(s: System, b: Batch) {
    && b.first <= Low(s.node.log)
    && forall i :: 0 <= i < |b.decisions| ==> Genuine(s.issued, b.decisions[i])
  }

  function CountAll(bs: seq<Batch>, key: AggKey): nat {
    if bs == [] then 0 else CountAll(bs[..|bs|-1], key) + Count(bs[|bs|-1].decisions, key)
  }

  /** Some stored batch holds exactly these decisions. */
  ghost predicate StoredAs(committed: seq<Batch>, ds: seq<Decision>) {
    exists b :: b in committed && b.decisions == ds
  }

  /** The decision was delivered in some stored batch. */
  ghost predicate Delivered(committed: seq<Batch>, d: Decision) {
    exists b :: b in committed && d in b.decisions
  }

  /** The row is that of a decision delivered under number k. */
  ghost predicate RowDelivered(committed: seq<Batch>, k: int, row: SampleRow) {
    exists d: Decision :: d.walSeq == k && RowOf(d) == row && Delivered(committed, d)
  }

  ghost predicate TablesOk(s: System) {
    && (forall key :: CountAt(s.tables.aggregates, key) == CountAll(s.committed, key))
    && (forall b :: b in s.committed ==> b in s.sent)
    && (forall id :: id in s.tables.batches ==> exists b :: b in s.committed && b.hash == s.tables.batches[id])
    && (forall b, d :: b in s.committed && d in b.decisions && d.action.Deny? ==> d.walSeq in s.tables.samples)
    && (forall k :: k in s.tables.samples ==> RowDelivered(s.committed, k, s.tables.samples[k]))
  }

  ghost predicate AckedOk(s: System) {
    && (forall b :: b in s.answered ==> StoredAs(s.committed, b.decisions))
    && (forall k :: k in s.acked && k in s.issued ==> Delivered(s.committed, s.issued[k]))
  }

  ghost predicate SysInv(cfg: Config, digest: Digest, s: System) {
    LogOk(cfg, s) && Accounted(s) && SentOk(digest, s) && TablesOk(s) && AckedOk(s)
  }

  // ----- What the log's operations do to the live numbers -----

  lemma PruneShape(cfg: Config, w: Log, now: int) returns (k: nat)
    ensures k <= |w.entries| && Prune(cfg, w, now).entries == w.entries[k..] && Prune(cfg, w, now).nextSeq == w.nextSeq
  {
    hide Sum;
    hide Write;
    k := if cfg.maxAge < 0 then 0 else Expired(w.entries, now - cfg.maxAge);
    assert w.entries[0..] == w.entries;
  }

  lemma MakeRoomShape(cfg: Config, noDrop: bool, w: Log, need: int) returns (k: nat)
    ensures k <= |w.entries| && MakeRoom(cfg, noDrop, w, need).entries == w.entries[k..]
    ensures MakeRoom(cfg, noDrop, w, need).nextSeq == w.nextSeq
  {
    hide Sum;
    hide Write;
    k := if noDrop then 0 else Surplus(w.entries, cfg.maxBytes - need);
    assert w.entries[0..] == w.entries;
  }

  /** w' is w without its k oldest entries, with one more for rec when given. */
  ghost predicate Shifted(w: Log, w': Log, k: nat, rec: Option<Decision>) {
    && k <= |w.entries| && |w'.entries| >= |w.entries| - k
    && w'.entries[..|w.entries| - k] == w.entries[k..]
    && match rec
       case None => w'.nextSeq == w.nextSeq && |w'.entries| == |w.entries| - k
       case Some(d) =>
         && w'.nextSeq == w.nextSeq + 1 && |w'.entries| == |w.entries| - k + 1
         && w'.entries[|w.entries| - k].rec == d
  }

  lemma AppendPrunedShape(cfg: Config, noDrop: bool, w: Log, rec: Decision) returns (k: nat)
    ensures var (w', r) := AppendPruned(cfg, noDrop, w, rec); Shifted(w, w', k, if r.Appended? then Some(rec) else None)
  {
    hide MakeRoom;
    hide Write;
    var size := LineBytes(cfg, rec);
    if size > MAX_LINE_BYTES {
      k := 0;
      assert w.entries[0..] == w.entries;
    } else {
      k := MakeRoomShape(cfg, noDrop, w, size);
    }
  }

  lemma AppendShape(cfg: Config, noDrop: bool, w: Log, d: Decision, decidedAt: Option<int>, now: int) returns (k: nat)
    ensures var (w', r) := Append(cfg, noDrop, w, d, decidedAt, now);
            Shifted(w, w', k, if r.Appended? then Some(Stamped(w, d, decidedAt, now)) else None)
  {
    hide Prune;
    hide AppendPruned;
    if d.action.OtherAction? {
      k := 0;
      assert w.entries[0..] == w.entries;
    } else {
      var p := PruneShape(cfg, w, now);
      var q := AppendPrunedShape(cfg, noDrop, Prune(cfg, w, now), Stamped(w, d, decidedAt, now));
      k := p + q;
      assert w.entries[p..][q..] == w.entries[k..];
    }
  }

  lemma AckShape(w: Log, through: int) returns (k: nat)
    ensures k <= |w.entries| && AckThrough(w, through).entries == w.entries[k..]
    ensures AckThrough(w, through).nextSeq == w.nextSeq
    ensures k > 0 ==> w.entries[k-1].rec.walSeq <= through
  {
    hide Sum;
    hide Write;
    k := if through <= 0 then 0 else Acked(w.entries, through);
    assert w.entries[0..] == w.entries;
    AckedSeparates(w.entries, through);
  }

  // ----- Every step keeps the invariant -----

  lemma RecordKeeps(cfg: Config, digest: Digest, s: System, step: Step, s': System)
    requires SysInv(cfg, digest, s) && Next(cfg, digest, s, step, s') && step.Record?
    ensures IssuedOk(s') && Accounted(s')
    ensures forall k :: k in s.issued ==> k in s'.issued && s'.issued[k] == s.issued[k]
    ensures Low(s.node.log) <= Low(s'.node.log)
  {
    hide Inv;
    hide Append;
    var w, w' := s.node.log, s'.node.log;
    var k := AppendShape(cfg, s.node.noDrop, w, step.d, step.decidedAt, step.now);
    assert Low(w') == Low(w) + k;
    LowPositive(cfg.maxBytes, w);
    forall i | 0 <= i < |w'.entries| ensures Genuine(s'.issued, w'.entries[i].rec) {
      if i < |w.entries| - k {
        assert w'.entries[i] == w'.entries[..|w.entries| - k][i] == w.entries[k+i];
      }
    }
    AccountedLoss(s, s');
  }

  lemma AccountedLoss(s: System, s': System)
    requires Accounted(s) && s'.acked == s.acked && s'.dropped == s.dropped + Range(Low(s.node.log), Low(s'.node.log))
    requires 1 <= Low(s.node.log) <= Low(s'.node.log)
    ensures Accounted(s')
  {
    assert forall k :: k in s'.acked + s'.dropped <==>
      k in s.acked + s.dropped || k in Range(Low(s.node.log), Low(s'.node.log));
  }

  lemma LowPositive(cap: int, w: Log)
    requires Inv(cap, w)
    ensures 1 <= Low(w) <= w.nextSeq
    ensures forall i :: 0 <= i < |w.entries| ==> w.entries[i].rec.walSeq == Low(w) + i
  {
    forall i | 0 <= i < |w.entries| ensures w.entries[i].rec.walSeq == Low(w) + i {
      assert Recs(w.entries)[i].walSeq == w.nextSeq - |w.entries| + i;
    }
  }

  /** A log that keeps only a suffix of its records. */
  lemma SuffixKeeps(s: System, s': System, k: nat)
    requires IssuedOk(s) && Accounted(s) && Loses(s, s') && s'.issued == s.issued && 1 <= Low(s.node.log)
    requires s'.node.log.nextSeq == s.node.log.nextSeq && k <= |s.node.log.entries|
    requires Recs(s'.node.log.entries) == Recs(s.node.log.entries)[k..]
    ensures IssuedOk(s') && Accounted(s') && Low(s.node.log) <= Low(s'.node.log)
  {
    var w, w' := s.node.log, s'.node.log;
    assert |Recs(w'.entries)| == |w.entries| - k;
    forall i | 0 <= i < |w'.entries| ensures Genuine(s'.issued, w'.entries[i].rec) {
      assert Recs(w'.entries)[i] == Recs(w.entries)[k..][i] == w.entries[k+i].rec;
    }
    AccountedLoss(s, s');
  }

  /** The issued history only grows, so the batch in flight stays genuine. */
  lemma SentSurvives(digest: Digest, s: System, s': System)
    requires SentOk(digest, s) && s'.sent == s.sent && s'.answered == s.answered
    requires s'.inflight == s.inflight || s'.inflight == None
    requires forall k :: k in s.issued ==> k in s'.issued && s'.issued[k] == s.issued[k]
    requires Low(s.node.log) <= Low(s'.node.log)
    ensures SentOk(digest, s')
  {
  }

  lemma TablesSame(s: System, s': System)
    requires TablesOk(s) && s'.tables == s.tables && s'.committed == s.committed && s.sent <= s'.sent
    ensures TablesOk(s')
  {
  }

  lemma AckedSurvives(s: System, s': System)
    requires AckedOk(s) && s'.committed == s.committed && s'.answered == s.answered && s'.acked <= s.acked
    requires forall k :: k in s'.acked && k in s'.issued ==> k in s.issued && s'.issued[k] == s.issued[k]
    ensures AckedOk(s')
  {
  }

  lemma SendKeeps(cfg: Config, digest: Digest, s: System, step: Step, s': System)
    requires SysInv(cfg, digest, s) && Next(cfg, digest, s, step, s') && step.Send?
    ensures SentOk(digest, s')
  {
    hide Inv;
    LowPositive(cfg.maxBytes, s.node.log);
    var ds := Pending(s.node.log, step.limit);
    var b := BuildBatch(digest, ds);
    forall i | 0 <= i < |ds| ensures ds[i].walSeq == b.first + i && Genuine(s.issued, ds[i]) {
      assert ds[i] == s.node.log.entries[i].rec;
      assert ds[0] == s.node.log.entries[0].rec;
    }
    assert BatchOk(digest, b);
  }

  lemma CommitBooks(committed: seq<Batch>, b: Batch, key: AggKey)
    ensures CountAll(committed + [b], key) == CountAll(committed, key) + Count(b.decisions, key)
  {
    assert (committed + [b])[..|committed|] == committed;
  }

  /** Old rows stay; new ones are rows of the arriving batch's own decisions; its denies all have one. */
  lemma ArriveSamples(table: map<int, SampleRow>, ds: seq<Decision>, rate: real)
    ensures var after := InsertSamples(table, SamplesOf(ds, rate));
            && (forall k :: k in table ==> k in after && after[k] == table[k])
            && (forall k :: k in after && k !in table ==>
                  exists d: Decision :: d in ds && d.walSeq == k && RowOf(d) == after[k])
            && (forall d :: d in ds && d.action.Deny? ==> d.walSeq in after)
  {
    var picked := SamplesOf(ds, rate);
    SamplesHoldDenies(ds, rate);
    InsertedSamples(table, picked);
    var after := InsertSamples(table, picked);
    forall k | k in after && k !in table
      ensures exists d: Decision :: d in ds && d.walSeq == k && RowOf(d) == after[k]
    {
      var d :| d in picked && d.walSeq == k && after[k] == RowOf(d);
      assert d in ds;
    }
  }

  lemma DeliveredGrows(committed: seq<Batch>, b: Batch)
    ensures forall d :: Delivered(committed, d) || d in b.decisions ==> Delivered(committed + [b], d)
  {
    assert b in committed + [b];
    forall d | Delivered(committed, d) ensures Delivered(committed + [b], d) {
      var c :| c in committed && d in c.decisions;
      assert c in committed + [b];
    }
  }

  lemma ArriveTables(s: System, b: Batch, rate: real, s': System)
    requires TablesOk(s) && b in s.sent
    requires Stored(s.tables, s'.tables, b, rate) && s'.committed == s.committed + [b] && s'.sent == s.sent
    ensures TablesOk(s')
  {
    hide InsertSamples;
    hide SamplesOf;
    ArriveSamples(s.tables.samples, b.decisions, rate);
    DeliveredGrows(s.committed, b);
    hide Delivered;
    forall key ensures CountAt(s'.tables.aggregates, key) == CountAll(s'.committed, key) {
      CommitBooks(s.committed, b, key);
    }
    assert forall c :: c in s'.committed <==> c in s.committed || c == b;
    forall k | k in s'.tables.samples ensures RowDelivered(s'.committed, k, s'.tables.samples[k]) {
      if k in s.tables.samples {
        var d: Decision :| d.walSeq == k && RowOf(d) == s.tables.samples[k] && Delivered(s.committed, d);
        assert Delivered(s'.committed, d);
      } else {
        var d: Decision :| d in b.decisions && d.walSeq == k && RowOf(d) == s'.tables.samples[k];
        assert Delivered(s'.committed, d);
      }
    }
    forall id | id in s'.tables.batches ensures exists c :: c in s'.committed && c.hash == s'.tables.batches[id] {
      if id == b.id { assert b in s'.committed; }
    }
  }

  lemma ArriveAcked(s: System, b: Batch, s': System)
    requires AckedOk(s) && s'.committed == s.committed + [b] && s'.answered == s.answered + {b}
    requires s'.acked == s.acked && s'.issued == s.issued
    ensures AckedOk(s')
  {
    assert b in s'.committed;
    DeliveredGrows(s.committed, b);
    forall a | a in s'.answered ensures StoredAs(s'.committed, a.decisions) {
      if a != b {
        var c :| c in s.committed && c.decisions == a.decisions;
        assert c in s'.committed;
      }
    }
  }

  /** A duplicate answer is right: the stored batch with that hash holds the same decisions. */
  lemma DuplicateStored(digest: Digest, s: System, b: Batch)
    requires Collisionfree(digest) && SentOk(digest, s) && TablesOk(s)
    requires b in s.sent && b.id in s.tables.batches && s.tables.batches[b.id] == b.hash
    ensures StoredAs(s.committed, b.decisions)
  {
    hide CountAll;
    hide RowDelivered;
    var c :| c in s.committed && c.hash == s.tables.batches[b.id];
    assert c in s.sent && BatchOk(digest, c);
    assert BatchOk(digest, b);
    assert digest.hash(c.decisions) == digest.hash(b.decisions);
  }

  lemma AnswerAcked(s: System, b: Batch, s': System)
    requires AckedOk(s) && StoredAs(s.committed, b.decisions) && s' == s.(answered := s.answered + {b})
    ensures AckedOk(s')
  {
  }

  lemma ConfirmKeeps(cfg: Config, digest: Digest, s: System, step: Step, s': System)
    requires SysInv(cfg, digest, s) && Next(cfg, digest, s, step, s') && step.Confirm?
    ensures LogOk(cfg, s') && Accounted(s') && SentOk(digest, s')
  {
    hide Inv;
    hide AckThrough;
    var b := s.inflight.value;
    var w, w' := s.node.log, s'.node.log;
    assert BatchOk(digest, b);
    var last := b.decisions[|b.decisions|-1];
    assert Genuine(s.issued, last) && last.walSeq == b.last;
    AckKeeps(cfg.maxBytes, w, b.last);
    var k := AckShape(w, b.last);
    LowPositive(cfg.maxBytes, w);
    assert Low(w') == Low(w) + k;
    var gone := Range(Low(w), Low(w'));
    assert forall n :: n in s'.acked + s'.dropped <==> n in s.acked + s.dropped || n in gone;
  }

  /** Only numbers of the confirmed batch become acked: nothing live was older, and nothing newer is acknowledged. */
  lemma ConfirmCovers(cfg: Config, digest: Digest, s: System, step: Step, s': System)
    requires SysInv(cfg, digest, s) && Next(cfg, digest, s, step, s') && step.Confirm?
    ensures AckedOk(s')
  {
    hide Inv;
    hide AckThrough;
    hide TablesOk;
    hide Delivered;
    var b := s.inflight.value;
    var w, w' := s.node.log, s'.node.log;
    var k := AckShape(w, b.last);
    LowPositive(cfg.maxBytes, w);
    assert BatchOk(digest, b) && b.last == b.decisions[|b.decisions|-1].walSeq;
    forall n | n in s'.acked && n in s'.issued ensures Delivered(s'.committed, s'.issued[n]) {
      if n !in s.acked {
        assert Low(w) <= n < Low(w) + k;
        assert w.entries[k-1].rec.walSeq == Low(w) + k - 1;
        ConfirmedDelivered(digest, s, b, n);
      }
    }
  }

  lemma ConfirmedDelivered(digest: Digest, s: System, b: Batch, n: int)
    requires BatchOk(digest, b) && InflightOk(s, b) && StoredAs(s.committed, b.decisions)
    requires b.first <= n <= b.last && n in s.issued
    ensures Delivered(s.committed, s.issued[n])
  {
    var c :| c in s.committed && c.decisions == b.decisions;
    var d := b.decisions[n - b.first];
    assert Genuine(s.issued, d) && d in c.decisions;
  }

  lemma CrashLog(s: System, w: Log)
    requires IssuedOk(s) && Accounted(s) && Earlier(s, w)
    requires 1 <= Low(w) && forall i :: 0 <= i < |w.entries| ==> w.entries[i].rec.walSeq == Low(w) + i
    ensures IssuedOk(AfterCrash(s, w)) && Accounted(AfterCrash(s, w))
  {
    var s' := AfterCrash(s, w);
    assert forall k :: k in s'.acked + s'.dropped <==> k in s.acked + s.dropped && k < Low(w);
  }

  /** A crash, whatever it loses, followed by the restart. */
  lemma CrashKeeps(cfg: Config, digest: Digest, s: System, w: Log, now: int, s': System)
    requires SysInv(cfg, digest, s) && FallsBack(s, w) && Restarts(cfg, AfterCrash(s, w), now, s')
    ensures SysInv(cfg, digest, s')
  {
    var mid := AfterCrash(s, w);
    assert mid.node.log == w && Mirrors(w) && Contiguous(Recs(w.entries), w.nextSeq);
    CapacityNonNegative(cfg.maxBytes, s.node.log);
    LowPositive(w.bytes, w);
    CrashLog(s, w);
    AckedSurvives(s, mid);
    SentSurvivesCrash(digest, s, w);
    TablesSame(s, mid);
    hide AfterCrash;
    hide SentOk;
    hide TablesOk;
    hide AckedOk;
    RestartKeeps(cfg, digest, mid, now, s');
  }

  lemma SentSurvivesCrash(digest: Digest, s: System, w: Log)
    requires SentOk(digest, s)
    ensures SentOk(digest, AfterCrash(s, w))
  {
  }

  /** The restart of a log that may have been over its capacity. */
  lemma RestartKeeps(cfg: Config, digest: Digest, s: System, now: int, s': System)
    requires Mirrors(s.node.log) && Contiguous(Recs(s.node.log.entries), s.node.log.nextSeq)
    requires IssuedOk(s) && Accounted(s) && SentOk(digest, s) && TablesOk(s) && AckedOk(s)
    requires 1 <= Low(s.node.log) && cfg.maxBytes >= 0 && Restarts(cfg, s, now, s')
    ensures SysInv(cfg, digest, s')
  {
    hide Inv;
    hide Mirrors;
    hide Reopen;
    hide IssuedOk;
    hide Accounted;
    var k := ReopenShape(cfg, s.node.forcedNoDrop, s.node.log, now);
    SuffixKeeps(s, s', k);
    SentSurvives(digest, s, s');
    TablesSame(s, s');
    AckedSurvives(s, s');
  }

  lemma NextKeeps(cfg: Config, digest: Digest, s: System, step: Step, s': System)
    requires Collisionfree(digest)
    requires SysInv(cfg, digest, s) && Next(cfg, digest, s, step, s')
    ensures SysInv(cfg, digest, s')
  {
    hide SysInv;
    match step {
      case Record(_, _, _) => LogStepKeeps(cfg, digest, s, step, s');
      case SetPolicy(_) => QuietStepKeeps(cfg, digest, s, step, s');
      case Restart(now) =>
        LogParts(cfg, digest, s);
        RestartKeeps(cfg, digest, s, now, s');
      case Send(_) => QuietStepKeeps(cfg, digest, s, step, s');
      case Arrive(_, _, _) => ArriveKeeps(cfg, digest, s, step, s');
      case GiveUp => QuietStepKeeps(cfg, digest, s, step, s');
      case Confirm => LogStepKeeps(cfg, digest, s, step, s');
      case Crash(w, now) => CrashKeeps(cfg, digest, s, w, now, s');
    }
  }

  lemma LogParts(cfg: Config, digest: Digest, s: System)
    requires SysInv(cfg, digest, s)
    ensures Mirrors(s.node.log) && Contiguous(Recs(s.node.log.entries), s.node.log.nextSeq)
    ensures IssuedOk(s) && Accounted(s) && SentOk(digest, s) && TablesOk(s) && AckedOk(s)
    ensures 1 <= Low(s.node.log) && cfg.maxBytes >= 0
  {
    CapacityNonNegative(cfg.maxBytes, s.node.log);
    LowPositive(cfg.maxBytes, s.node.log);
  }

  /** The steps that change the log. */
  lemma LogStepKeeps(cfg: Config, digest: Digest, s: System, step: Step, s': System)
    requires SysInv(cfg, digest, s) && Next(cfg, digest, s, step, s')
    requires step.Record? || step.Confirm?
    ensures SysInv(cfg, digest, s')
  {
    hide Inv;
    hide Append;
    hide AckThrough;
    hide IssuedOk;
    hide Accounted;
    TablesSame(s, s');
    if step.Record? {
      AppendKeeps(cfg, s.node.noDrop, s.node.log, step.d, step.decidedAt, step.now);
      RecordKeeps(cfg, digest, s, step, s');
      SentSurvives(digest, s, s');
      RecordAcked(s, s');
    } else {
      ConfirmKeeps(cfg, digest, s, step, s');
      ConfirmCovers(cfg, digest, s, step, s');
    }
  }

  lemma RecordAcked(s: System, s': System)
    requires AckedOk(s) && IssuedOk(s) && Accounted(s) && Loses(s, s')
    requires forall k :: k in s.issued ==> k in s'.issued && s'.issued[k] == s.issued[k]
    ensures AckedOk(s')
  {
    assert forall k :: k in s.acked ==> k in s.acked + s.dropped;
    AckedSurvives(s, s');
  }

  /** The steps that leave the log and the tables alone. */
  lemma QuietStepKeeps(cfg: Config, digest: Digest, s: System, step: Step, s': System)
    requires SysInv(cfg, digest, s) && Next(cfg, digest, s, step, s')
    requires step.SetPolicy? || step.Send? || step.GiveUp?
    ensures SysInv(cfg, digest, s')
  {
    hide Inv;
    TablesSame(s, s');
    AckedSurvives(s, s');
    if step.Send? {
      SendKeeps(cfg, digest, s, step, s');
    } else {
      SentSurvives(digest, s, s');
    }
  }

  lemma ArriveKeeps(cfg: Config, digest: Digest, s: System, step: Step, s': System)
    requires Collisionfree(digest)
    requires SysInv(cfg, digest, s) && Next(cfg, digest, s, step, s') && step.Arrive?
    ensures SysInv(cfg, digest, s')
  {
    hide LogOk;
    hide TablesOk;
    hide AckedOk;
    hide Stored;
    hide ShapeOk;
    hide BatchOk;
    hide InflightOk;
    SameLog(cfg, s, s');
    if step.r.Accepted? {
      ArriveTables(s, step.b, step.rate, s');
      ArriveAcked(s, step.b, s');
    } else if step.r.Duplicate? {
      DuplicateStored(digest, s, step.b);
      AnswerAcked(s, step.b, s');
      TablesSame(s, s');
    } else {
      assert s' == s;
    }
  }

  lemma SameLog(cfg: Config, s: System, s': System)
    requires LogOk(cfg, s) && s'.node == s.node && s'.issued == s.issued
    ensures LogOk(cfg, s')
    ensures forall b :: InflightOk(s, b) ==> InflightOk(s', b)
  {
  }

  lemma InitInv(cfg: Config, digest: Digest, s: System)
    requires Init(cfg, s)
    ensures SysInv(cfg, digest, s)
  {
    FreshInv(cfg);
  }

  // ----- Whole runs -----

  ghost predicate NextAt(cfg: Config, digest: Digest, run: seq<System>, i: nat)
    requires 0 < i < |run|
  {
    CanStep(cfg, digest, run[i-1], run[i])
  }

  ghost predicate CanStep(cfg: Config, digest: Digest, s: System, s': System) {
    exists step :: Next(cfg, digest, s, step, s')
  }

  ghost predicate IsRun(cfg: Config, digest: Digest, run: seq<System>) {
    run != [] && Init(cfg, run[0]) && forall i :: 0 < i < |run| ==> NextAt(cfg, digest, run, i)
  }

  lemma {:induction false} RunInv(cfg: Config, digest: Digest, run: seq<System>, i: nat)
    requires Collisionfree(digest) && IsRun(cfg, digest, run) && i < |run|
    ensures SysInv(cfg, digest, run[i])
  {
    hide SysInv;
    hide Next;
    if i == 0 {
      InitInv(cfg, digest, run[0]);
    } else {
      RunInv(cfg, digest, run, i - 1);
      assert NextAt(cfg, digest, run, i);
      var step :| Next(cfg, digest, run[i-1], step, run[i]);
      NextKeeps(cfg, digest, run[i-1], step, run[i]);
    }
  }

  ghost predicate IsPending(s: System, k: int) {
    exists i :: 0 <= i < |s.node.log.entries| && s.node.log.entries[i].rec.walSeq == k
  }

  /**
    In every reachable state each number ever issued is exactly one of pending, acked or dropped, and no other number
    is any.
   */
  lemma EveryNumberAccounted(cfg: Config, digest: Digest, run: seq<System>, i: nat, k: int)
    requires Collisionfree(digest) && IsRun(cfg, digest, run) && i < |run|
    ensures var s := run[i];
            && (k in s.issued <==> IsPending(s, k) || k in s.acked || k in s.dropped)
            && !(IsPending(s, k) && k in s.acked) && !(IsPending(s, k) && k in s.dropped)
            && !(k in s.acked && k in s.dropped)
  {
    hide Inv;
    hide IsRun;
    RunInv(cfg, digest, run, i);
    var s := run[i];
    LowPositive(cfg.maxBytes, s.node.log);
    if Low(s.node.log) <= k < s.node.log.nextSeq {
      assert s.node.log.entries[k - Low(s.node.log)].rec.walSeq == k;
    }
    assert k in s.acked + s.dropped <==> k in s.acked || k in s.dropped;
  }

  /** The acked numbers whose decisions belong in a cell. */
  function AckedIn(s: System, key: AggKey): set<int> {
    set k | k in s.acked && k in s.issued && InCell(s.issued[k], key)
  }

  function Numbers(ds: seq<Decision>, key: AggKey): set<int> {
    set d | d in ds && key in KeysOf(d) :: d.walSeq
  }

  lemma {:induction false} NumbersWithinCount(ds: seq<Decision>, key: AggKey)
    ensures |Numbers(ds, key)| <= Count(ds, key)
  {
    hide KeysOf;
    if ds != [] {
      var last := |ds| - 1;
      NumbersWithinCount(ds[..last], key);
      var before := Numbers(ds[..last], key);
      assert forall d :: d in ds <==> d in ds[..last] || d == ds[last];
      assert ds[last] in ds;
      if key in KeysOf(ds[last]) {
        assert Numbers(ds, key) == before + {ds[last].walSeq};
      } else {
        assert Numbers(ds, key) == before;
      }
    } else {
      assert Numbers(ds, key) == {};
    }
  }

  function AllNumbers(bs: seq<Batch>, key: AggKey): set<int> {
    if bs == [] then {} else AllNumbers(bs[..|bs|-1], key) + Numbers(bs[|bs|-1].decisions, key)
  }

  lemma {:induction false} AllNumbersWithinCount(bs: seq<Batch>, key: AggKey)
    ensures |AllNumbers(bs, key)| <= CountAll(bs, key)
  {
    if bs != [] {
      var last := |bs| - 1;
      AllNumbersWithinCount(bs[..last], key);
      NumbersWithinCount(bs[last].decisions, key);
      var a, b := AllNumbers(bs[..last], key), Numbers(bs[last].decisions, key);
      assert |a + b| <= |a| + |b|;
    }
  }

  lemma {:induction false} InAllNumbers(bs: seq<Batch>, key: AggKey, b: Batch, d: Decision)
    requires b in bs && d in b.decisions && key in KeysOf(d)
    ensures d.walSeq in AllNumbers(bs, key)
  {
    var last := |bs| - 1;
    if b == bs[last] {
      assert d.walSeq in Numbers(bs[last].decisions, key);
    } else {
      assert b in bs[..last];
      InAllNumbers(bs[..last], key, b, d);
    }
  }

  lemma SubsetSize(a: set<int>, b: set<int>)
    requires a <= b
    ensures |a| <= |b|
  {
    var rest := b - a;
    assert b == a + rest;
  }

  /**
    At-least-once counting: in every reachable state, each aggregate cell counts at least as many decisions as the
    acked ones that belong in it, so no acknowledged decision is missing from the aggregates.
   */
  lemma AckedAreCounted(cfg: Config, digest: Digest, run: seq<System>, i: nat, key: AggKey)
    requires Collisionfree(digest) && IsRun(cfg, digest, run) && i < |run|
    ensures |AckedIn(run[i], key)| <= CountAt(run[i].tables.aggregates, key)
  {
    hide Inv;
    hide IsRun;
    hide InCell;
    hide KeysOf;
    RunInv(cfg, digest, run, i);
    var s := run[i];
    forall k | k in AckedIn(s, key) ensures k in AllNumbers(s.committed, key) {
      InCellIff(s.issued[k], key);
      var b :| b in s.committed && s.issued[k] in b.decisions;
      InAllNumbers(s.committed, key, b, s.issued[k]);
    }
    AllNumbersWithinCount(s.committed, key);
    SubsetSize(AckedIn(s, key), AllNumbers(s.committed, key));
  }
}
