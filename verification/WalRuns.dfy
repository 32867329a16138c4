/** The decision log over whole runs: what every operation keeps, what a crash leaves, and what a restart finds. */
module WalRuns {
  import opened Text
  import opened WalLog
  import opened Wal
  import opened WalReopen

  // ----- Runs as sequences of single-line steps -----

  /** One line written with its change of memory, one compaction, sizing the records anew on a restart, or no change. */
  ghost predicate Micro(cfg: Config, w: Log, w': Log) {
    || w' == w
    || w' == Compact(w) || w' == Resized(cfg, w)
    || (exists k: nat, through :: Separates(w, k, through) && w' == Remove(w, k, through))
    || (exists e: Entry :: Fits(cfg, w, e) && w' == Add(w, e))
  }

  predicate Fits(cfg: Config, w: Log, e: Entry) {
    e.rec.walSeq == w.nextSeq && e.size >= 0 && w.bytes + e.size <= cfg.maxBytes
  }

  ghost predicate MicroAt(cfg: Config, t: seq<Log>, i: nat)
    requires 0 < i < |t|
  {
    Micro(cfg, t[i - 1], t[i])
  }

  ghost predicate IsTrace(cfg: Config, t: seq<Log>) {
    t != [] && forall i :: 0 < i < |t| ==> MicroAt(cfg, t, i)
  }

  ghost function Last(t: seq<Log>): Log
    requires t != []
  {
    t[|t| - 1]
  }

  /** What holds between the steps of an operation too, when the capacity may not be restored yet. */
  ghost predicate Sound(w: Log) {
    Inv(w.bytes, w)
  }

  lemma MicroKeeps(cfg: Config, w: Log, w': Log)
    requires Sound(w) && Micro(cfg, w, w')
    ensures Sound(w')
  {
    if w' == Compact(w) {
      CompactMirrors(w);
    } else if w' == Resized(cfg, w) {
      ResizedInv(cfg, w);
    } else if w' != w {
      if k: nat, through :| Separates(w, k, through) && w' == Remove(w, k, through) {
        RemoveKeeps(w.bytes, w, k, through);
      } else {
        var e: Entry :| Fits(cfg, w, e) && w' == Add(w, e);
        AddKeeps(w.bytes + e.size, w, e);
      }
    }
  }

  lemma {:induction false} TraceKeeps(cfg: Config, t: seq<Log>, i: nat)
    requires IsTrace(cfg, t) && Sound(t[0]) && i < |t|
    ensures Sound(t[i])
  {
    if i > 0 {
      TraceKeeps(cfg, t, i - 1);
      assert MicroAt(cfg, t, i);
      MicroKeeps(cfg, t[i-1], t[i]);
    }
  }

  lemma TraceHealthy(cfg: Config, t: seq<Log>, i: nat)
    requires IsTrace(cfg, t) && Sound(t[0]) && i < |t|
    ensures Healthy(t[i].file)
  {
    TraceKeeps(cfg, t, i);
  }

  lemma OneLog(cfg: Config, w: Log)
    ensures IsTrace(cfg, [w])
  {
  }

  lemma TraceExtends(cfg: Config, t: seq<Log>, w: Log)
    requires IsTrace(cfg, t) && Micro(cfg, Last(t), w)
    ensures IsTrace(cfg, t + [w])
  {
    var longer := t + [w];
    forall i | 0 < i < |longer| ensures MicroAt(cfg, longer, i) {
      if i < |t| { assert MicroAt(cfg, t, i); }
    }
  }

  // ----- Crashes -----

  /**
    What a crash leaves: some whole lines, of which the last may have lost its newline, or a torn fragment after them.
   */
  datatype Damage = AtLine(kept: nat) | NewlineLost(kept: nat) | InsideLine(kept: nat)

  function Crashed(f: File, d: Damage): File
    requires d.kept <= |f.tokens|
  {
    match d
    case AtLine(m) => File(f.tokens[..m], true)
    case NewlineLost(m) => File(f.tokens[..m], false)
    case InsideLine(m) => File(f.tokens[..m] + [Bad], false)
  }

  /** w is the state right after line m of the final file was written, since the last compaction. */
  ghost predicate WroteLine(w: Log, final: Log, m: nat) {
    && Healthy(w.file) && |w.file.tokens| == m <= |final.file.tokens|
    && w.image == final.image && w.file.tokens == final.file.tokens[..m]
  }

  lemma {:induction false} LineWriter(cfg: Config, t: seq<Log>, m: nat) returns (j: nat)
    requires IsTrace(cfg, t) && Sound(t[0]) && t[0].image == |t[0].file.tokens|
    requires Last(t).image <= m <= |Last(t).file.tokens|
    ensures j < |t| && WroteLine(t[j], Last(t), m)
    decreases |t|
  {
    hide Sound;
    hide Micro;
    var n := |t| - 1;
    TraceHealthy(cfg, t, n);
    if m == |t[n].file.tokens| {
      j := n;
      assert t[n].file.tokens[..m] == t[n].file.tokens;
    } else {
      TraceHealthy(cfg, t, n - 1);
      assert MicroAt(cfg, t, n);
      EarlierLine(cfg, t[n-1], t[n], m);
      ShorterTrace(cfg, t);
      j := LineWriter(cfg, t[..n], m);
      assert t[n-1].file.tokens[..m] == t[n].file.tokens[..m];
    }
  }

  lemma ShorterTrace(cfg: Config, t: seq<Log>)
    requires IsTrace(cfg, t) && |t| > 1
    ensures IsTrace(cfg, t[..|t|-1])
  {
    var shorter := t[..|t|-1];
    forall i | 0 < i < |shorter| ensures MicroAt(cfg, shorter, i) { assert MicroAt(cfg, t, i); }
  }

  /** A step leaves the file alone, replaces it by a synced image, or writes one line at its end. */
  lemma MicroFile(cfg: Config, w: Log, w': Log)
    requires Micro(cfg, w, w')
    ensures || (w'.file == w.file && w'.image == w.image)
            || |w'.file.tokens| == w'.image
            || (w'.image == w.image && exists line :: w'.file == Write(w.file, line))
  {
    hide Write;
    hide Sum;
    if w' == Compact(w) {
      assert |w'.file.tokens| == w'.image;
    } else if w' != w && w' != Resized(cfg, w) {
      if k: nat, through :| Separates(w, k, through) && w' == Remove(w, k, through) {
        assert w'.file == Write(w.file, Ack(through));
      } else {
        var e: Entry :| Fits(cfg, w, e) && w' == Add(w, e);
        assert w'.file == Write(w.file, Dec(e.rec));
      }
    }
  }

  /** A line that is not the newest and not part of the compaction image was already there one step earlier. */
  lemma EarlierLine(cfg: Config, w: Log, w': Log, m: nat)
    requires Healthy(w.file) && Micro(cfg, w, w') && w'.image <= m < |w'.file.tokens|
    ensures w.image == w'.image && m <= |w.file.tokens| && w.file.tokens[..m] == w'.file.tokens[..m]
  {
    hide Micro;
    hide AllGood;
    MicroFile(cfg, w, w');
    if w'.file != w.file || w'.image != w.image {
      var line :| w'.file == Write(w.file, line);
      assert w'.file.tokens == w.file.tokens + [Good(line)];
    }
  }

  /**
    The crash theorem: after any run since a compaction (or since the file was created), cutting the file at any line
    written since, or inside one, still loads, to exactly the records and next number of the state right after the
    last whole line was written.
   */
  lemma CrashRecovers(cfg: Config, t: seq<Log>, d: Damage) returns (j: nat)
    requires IsTrace(cfg, t) && Sound(t[0]) && t[0].image == |t[0].file.tokens|
    requires Last(t).image <= d.kept <= |Last(t).file.tokens|
    ensures j < |t| && WroteLine(t[j], Last(t), d.kept)
    ensures Load(Crashed(Last(t).file, d)) == Ok(Loaded(Recs(t[j].entries), t[j].nextSeq))
  {
    j := LineWriter(cfg, t, d.kept);
    TraceKeeps(cfg, t, j);
    LoadsBack(t[j]);
    CrashedLines(Last(t).file, d, t[j].file);
  }

  lemma CrashedLines(f: File, d: Damage, whole: File)
    requires d.kept <= |f.tokens| && AllGood(whole.tokens) && whole.tokens == f.tokens[..d.kept]
    ensures Load(Crashed(f, d)) == Load(whole)
  {
    LinesOfAppend(whole.tokens, Bad);
    assert LinesOf(Crashed(f, d).tokens) == LinesOf(whole.tokens);
  }

  // ----- Operations -----

  datatype Op = DoAppend(d: Decision, decidedAt: Option<int>, now: int) | DoAck(through: int)
              | DoSetNoDrop(policy: bool)
              | DoRestart(now: int)

  datatype Node = Node(log: Log, forcedNoDrop: bool, noDrop: bool)

  function Apply(cfg: Config, n: Node, op: Op): Node {
    match op
    case DoAppend(d, decidedAt, now) => n.(log := Append(cfg, n.noDrop, n.log, d, decidedAt, now).0)
    case DoAck(through) => n.(log := AckThrough(n.log, through))
    case DoSetNoDrop(policy) => n.(noDrop := n.forcedNoDrop || policy)
    case DoRestart(now) =>
      match Reopen(cfg, n.forcedNoDrop, n.log.file, n.log.image, now) {
        case Ok(w) => Node(w, n.forcedNoDrop, n.forcedNoDrop)
        case Err(_) => n
      }
  }

  function Run(cfg: Config, n: Node, ops: seq<Op>): Node {
    if ops == [] then n else Apply(cfg, Run(cfg, n, ops[..|ops|-1]), ops[|ops|-1])
  }

  /**
    Acknowledgements name sequence numbers already issued, as every number that came out of Pending is, and a restart is
    one the log does not refuse.
   */
  predicate Feasible(cfg: Config, n: Node, ops: seq<Op>) {
    ops == [] ||
    (Feasible(cfg, n, ops[..|ops|-1]) && CanApply(cfg, Run(cfg, n, ops[..|ops|-1]), ops[|ops|-1]))
  }

  predicate CanApply(cfg: Config, n: Node, op: Op) {
    && (op.DoAck? ==> op.through < n.log.nextSeq)
    && (op.DoRestart? ==> Reopen(cfg, n.forcedNoDrop, n.log.file, n.log.image, op.now).Ok?)
  }

  function FreshLog(): Log {
    Log([], 1, 0, 0, Write(File([], true), Meta(WAL_SCHEMA_VERSION, 1)), 1)
  }

  lemma FreshInv(cfg: Config)
    requires cfg.maxBytes >= 0
    ensures Inv(cfg.maxBytes, FreshLog()) && FreshLog().image == |FreshLog().file.tokens|
  {
    var empty := Log([], 1, 0, 0, File([], true), 0);
    CompactMirrors(empty);
    assert DecLines([]) == [];
    assert Image([], 1) == [Meta(WAL_SCHEMA_VERSION, 1)];
    assert Compact(empty) == FreshLog();
  }

  /**
    Every run keeps the invariant: consecutive numbers below nextSeq, exact byte count within capacity, file a mirror.
   */
  lemma {:induction false} RunKeeps(cfg: Config, n: Node, ops: seq<Op>)
    requires Inv(cfg.maxBytes, n.log) && Feasible(cfg, n, ops)
    ensures Inv(cfg.maxBytes, Run(cfg, n, ops).log)
  {
    if ops != [] {
      var before, op := Run(cfg, n, ops[..|ops|-1]), ops[|ops|-1];
      RunKeeps(cfg, n, ops[..|ops|-1]);
      match op
      case DoAppend(d, decidedAt, now) => AppendKeeps(cfg, before.noDrop, before.log, d, decidedAt, now);
      case DoAck(through) => AckKeeps(cfg.maxBytes, before.log, through);
      case DoSetNoDrop(_) =>
      case DoRestart(now) =>
        CapacityNonNegative(cfg.maxBytes, before.log);
        var _ := ReopenShape(cfg, before.forcedNoDrop, before.log, now);
    }
  }

  /** Loading the whole file after any run from a new file gives exactly the live records and nextSeq. */
  lemma RunLoadsBack(cfg: Config, forced: bool, ops: seq<Op>)
    requires cfg.maxBytes >= 0
    requires Feasible(cfg, Node(FreshLog(), forced, forced), ops)
    ensures var end := Run(cfg, Node(FreshLog(), forced, forced), ops).log;
            && Load(end.file) == Ok(Loaded(Recs(end.entries), end.nextSeq))
            && Contiguous(Recs(end.entries), end.nextSeq)
            && 0 <= end.bytes == Sum(end.entries) <= cfg.maxBytes
  {
    FreshInv(cfg);
    RunKeeps(cfg, Node(FreshLog(), forced, forced), ops);
    var end := Run(cfg, Node(FreshLog(), forced, forced), ops).log;
    LoadsBack(end);
    SumNonNegative(end.entries);
  }

  lemma EvictMicro(cfg: Config, cap: int, w: Log, k: nat)
    requires Inv(cap, w) && k <= |w.entries|
    ensures Micro(cfg, w, Evict(w, k))
  {
    if k > 0 {
      assert w.entries[k-1].rec == Recs(w.entries)[k-1];
      if k < |w.entries| { assert w.entries[k].rec == Recs(w.entries)[k]; }
      assert Separates(w, k, w.entries[k-1].rec.walSeq);
    }
  }

  lemma EvictNothing(w: Log)
    ensures Evict(w, 0) == w
  {
  }

  lemma PruneMicro(cfg: Config, cap: int, w: Log, now: int)
    requires Inv(cap, w)
    ensures Micro(cfg, w, Prune(cfg, w, now))
  {
    hide Inv;
    hide Micro;
    hide Expired;
    hide Evict;
    EvictMicro(cfg, cap, w, 0);
    EvictMicro(cfg, cap, w, Expired(w.entries, now - cfg.maxAge));
    EvictNothing(w);
  }

  lemma MakeRoomMicro(cfg: Config, cap: int, noDrop: bool, w: Log, need: int)
    requires Inv(cap, w)
    ensures Micro(cfg, w, MakeRoom(cfg, noDrop, w, need))
  {
    hide Inv;
    hide Micro;
    hide Surplus;
    hide Evict;
    EvictMicro(cfg, cap, w, 0);
    EvictMicro(cfg, cap, w, Surplus(w.entries, cfg.maxBytes - need));
    EvictNothing(w);
  }

  lemma AppendTrace(cfg: Config, noDrop: bool, t: seq<Log>, d: Decision, decidedAt: Option<int>, now: int)
    returns (t': seq<Log>)
    requires IsTrace(cfg, t) && Inv(cfg.maxBytes, Last(t))
    ensures IsTrace(cfg, t') && t'[0] == t[0] && Last(t') == Append(cfg, noDrop, Last(t), d, decidedAt, now).0
  {
    t' := t;
    var w := Last(t);
    if !d.action.OtherAction? {
      var pruned, rec := Prune(cfg, w, now), Stamped(w, d, decidedAt, now);
      PruneKeeps(cfg, cfg.maxBytes, w, now);
      PruneMicro(cfg, cfg.maxBytes, w, now);
      TraceExtends(cfg, t', pruned);
      t' := t' + [pruned];
      var size := LineBytes(cfg, rec);
      if size <= MAX_LINE_BYTES {
        t' := RoomyTrace(cfg, noDrop, t', rec, size);
      }
    }
  }

  lemma RoomyTrace(cfg: Config, noDrop: bool, t: seq<Log>, rec: Decision, size: int) returns (t': seq<Log>)
    requires IsTrace(cfg, t) && Inv(cfg.maxBytes, Last(t)) && rec.walSeq == Last(t).nextSeq
    requires size == LineBytes(cfg, rec) <= MAX_LINE_BYTES
    ensures IsTrace(cfg, t') && t'[0] == t[0] && Last(t') == AppendPruned(cfg, noDrop, Last(t), rec).0
  {
    hide Inv;
    hide MakeRoom;
    hide Sum;
    var roomy := MakeRoom(cfg, noDrop, Last(t), size);
    MakeRoomKeeps(cfg, noDrop, Last(t), size);
    MakeRoomMicro(cfg, cfg.maxBytes, noDrop, Last(t), size);
    TraceExtends(cfg, t, roomy);
    t' := t + [roomy];
    if roomy.bytes + size <= cfg.maxBytes {
      var added := Add(roomy, Entry(rec, size));
      assert Fits(cfg, roomy, Entry(rec, size));
      TraceExtends(cfg, t', added);
      t' := t' + [added];
      TraceExtends(cfg, t', MaybeCompact(added));
      t' := t' + [MaybeCompact(added)];
    }
  }

  lemma AckTrace(cfg: Config, t: seq<Log>, through: int) returns (t': seq<Log>)
    requires IsTrace(cfg, t) && Inv(cfg.maxBytes, Last(t)) && through < Last(t).nextSeq
    ensures IsTrace(cfg, t') && t'[0] == t[0] && Last(t') == AckThrough(Last(t), through)
  {
    hide Inv;
    hide Sum;
    hide Acked;
    var w := Last(t);
    var k := if through <= 0 then 0 else Acked(w.entries, through);
    t' := t;
    if k > 0 {
      AckedSeparates(w.entries, through);
      assert Separates(w, k, through);
      var removed := Remove(w, k, through);
      TraceExtends(cfg, t', removed);
      t' := t' + [removed];
      TraceExtends(cfg, t', MaybeCompact(removed));
      t' := t' + [MaybeCompact(removed)];
    }
  }

  lemma RestartTrace(cfg: Config, noDrop: bool, t: seq<Log>, now: int) returns (t': seq<Log>)
    requires IsTrace(cfg, t) && Inv(cfg.maxBytes, Last(t))
    requires Reopen(cfg, noDrop, Last(t).file, Last(t).image, now).Ok?
    ensures IsTrace(cfg, t') && t'[0] == t[0] && Last(t') == Reopen(cfg, noDrop, Last(t).file, Last(t).image, now).value
  {
    var w := Last(t);
    var start := Resized(cfg, w);
    var pruned := Prune(cfg, start, now);
    ReopenIsSettle(cfg, noDrop, w, now);
    ResizedInv(cfg, w);
    PruneKeeps(cfg, start.bytes, start, now);
    hide Inv;
    hide Prune;
    hide MakeRoom;
    hide Reopen;
    TraceExtends(cfg, t, start);
    PruneMicro(cfg, start.bytes, start, now);
    TraceExtends(cfg, t + [start], pruned);
    MakeRoomMicro(cfg, start.bytes, noDrop, pruned, 0);
    TraceExtends(cfg, t + [start] + [pruned], MakeRoom(cfg, noDrop, pruned, 0));
    t' := t + [start] + [pruned] + [MakeRoom(cfg, noDrop, pruned, 0)];
  }

  /**
    Every run of operations is a trace of single-line steps, so the crash theorem covers crashes in the middle of an
    operation.
   */
  lemma {:induction false} RunTrace(cfg: Config, n: Node, ops: seq<Op>) returns (t: seq<Log>)
    requires Inv(cfg.maxBytes, n.log) && Feasible(cfg, n, ops)
    ensures IsTrace(cfg, t) && t[0] == n.log && Last(t) == Run(cfg, n, ops).log
  {
    hide Inv;
    hide IsTrace;
    hide Append;
    hide AckThrough;
    hide Reopen;
    if ops == [] {
      t := [n.log];
      OneLog(cfg, n.log);
    } else {
      var prefix, op := ops[..|ops|-1], ops[|ops|-1];
      t := RunTrace(cfg, n, prefix);
      RunKeeps(cfg, n, prefix);
      var before := Run(cfg, n, prefix);
      match op
      case DoAppend(d, decidedAt, now) => t := AppendTrace(cfg, before.noDrop, t, d, decidedAt, now);
      case DoAck(through) => t := AckTrace(cfg, t, through);
      case DoSetNoDrop(_) =>
      case DoRestart(now) => t := RestartTrace(cfg, before.forcedNoDrop, t, now);
    }
  }

  /** A crash after any run from a new file, whole form. */
  lemma RunSurvivesCrash(cfg: Config, forced: bool, ops: seq<Op>, d: Damage) returns (t: seq<Log>, j: nat)
    requires cfg.maxBytes >= 0
    requires Feasible(cfg, Node(FreshLog(), forced, forced), ops)
    requires var end := Run(cfg, Node(FreshLog(), forced, forced), ops).log; end.image <= d.kept <= |end.file.tokens|
    ensures IsTrace(cfg, t) && t[0] == FreshLog() && Last(t) == Run(cfg, Node(FreshLog(), forced, forced), ops).log
    ensures j < |t| && WroteLine(t[j], Last(t), d.kept)
    ensures Load(Crashed(Last(t).file, d)) == Ok(Loaded(Recs(t[j].entries), t[j].nextSeq))
  {
    FreshInv(cfg);
    t := RunTrace(cfg, Node(FreshLog(), forced, forced), ops);
    j := CrashRecovers(cfg, t, d);
  }
}
