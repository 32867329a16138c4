/**
  Opening a log on a file with a torn tail and writing on: the tail is not repaired, so what is written next may be lost
  or spoil the file, until a compaction rewrites it.
 */
module WalTorn {
  import opened Text
  import opened WalLog
  import opened Wal
  import opened WalReopen
  import opened WalRuns

  // ----- Lines written onto a file -----

  function WriteAll(f: File, lines: seq<Line>): File {
    if lines == [] then f else Write(WriteAll(f, lines[..|lines|-1]), lines[|lines|-1])
  }

  /** The next line written starts on a line of its own, after lines that all parse. */
  predicate CleanTail(f: File) {
    f.tokens == [] || (f.terminated && f.tokens[|f.tokens|-1].Good?)
  }

  lemma {:induction false} WriteAllClean(f: File, lines: seq<Line>)
    requires CleanTail(f) && lines != []
    ensures WriteAll(f, lines) == File(f.tokens + Whole(lines).tokens, true)
  {
    var last := |lines| - 1;
    if last > 0 { WriteAllClean(f, lines[..last]); }
    else { assert lines[..last] == []; }
  }

  lemma {:induction false} WriteAllTorn(f: File, lines: seq<Line>)
    requires f.tokens != [] && !f.terminated && lines != []
    ensures WriteAll(f, lines) ==
            File(f.tokens[..|f.tokens|-1] + [Bad] +
                 seq(|lines| - 1, i requires 0 <= i < |lines| - 1 => Good(lines[i+1])), true)
  {
    var last := |lines| - 1;
    if last > 0 { WriteAllTorn(f, lines[..last]); }
    else { assert lines[..last] == []; }
  }

  lemma {:induction false} WriteAllBad(f: File, lines: seq<Line>)
    requires f.tokens != [] && f.terminated
    ensures WriteAll(f, lines).terminated && |WriteAll(f, lines).tokens| == |f.tokens| + |lines|
    ensures WriteAll(f, lines).tokens[..|f.tokens|] == f.tokens
  {
    if lines != [] { WriteAllBad(f, lines[..|lines|-1]); }
  }

  lemma LoadOkIff(f: File)
    ensures Load(f).Ok? <==> TornAtMostAtEnd(f.tokens) && SchemasOk(LinesOf(f.tokens))
  {
  }

  lemma {:induction false} MetaLinesIff(tokens: seq<Token>)
    ensures SchemasOk(LinesOf(tokens)) <==>
            forall i :: 0 <= i < |tokens| && tokens[i].Good? && tokens[i].line.Meta? ==>
              tokens[i].line.schemaVersion == 2 || tokens[i].line.schemaVersion == 0
  {
    if tokens != [] {
      var last := |tokens| - 1;
      var before, lines := LinesOf(tokens[..last]), LinesOf(tokens);
      MetaLinesIff(tokens[..last]);
      assert forall i :: 0 <= i < last ==> tokens[..last][i] == tokens[i];
      assert SchemasOk(lines) <==> SchemasOk(before) && (tokens[last].Good? ==> SchemaOk(tokens[last].line)) by {
        if tokens[last].Good? {
          assert lines == before + [tokens[last].line];
          assert lines[|before|] == tokens[last].line && lines[..|before|] == before;
          assert forall i :: 0 <= i < |before| ==> before[i] == lines[i];
        } else {
          assert lines == before;
        }
      }
    }
  }

  /**
    A file loads exactly when every line before the last parses and every header line carries schema version 2, or none
    at all, which reads as 0.
   */
  lemma LoadsIff(f: File)
    ensures Load(f).Ok? <==>
            && (forall i :: 0 <= i < |f.tokens| - 1 ==> f.tokens[i].Good?)
            && (forall i :: 0 <= i < |f.tokens| && f.tokens[i].Good? && f.tokens[i].line.Meta? ==>
                f.tokens[i].line.schemaVersion == 2 || f.tokens[i].line.schemaVersion == 0)
  {
    MetaLinesIff(f.tokens);
  }

  lemma SchemasJoin(a: seq<Line>, b: seq<Line>)
    requires SchemasOk(a) && SchemasOk(b)
    ensures SchemasOk(a + b)
  {
  }

  lemma CleanWritesLoad(f: File, lines: seq<Line>)
    requires Load(f).Ok? && SchemasOk(lines) && lines != [] && CleanTail(f)
    ensures Load(WriteAll(f, lines)).Ok?
  {
    LoadOkIff(f);
    SchemasJoin(LinesOf(f.tokens), lines);
    WriteAllClean(f, lines);
    CleanLines(f, lines);
    LoadOkIff(WriteAll(f, lines));
  }

  lemma {:induction false} CleanLines(f: File, lines: seq<Line>)
    requires CleanTail(f) && TornAtMostAtEnd(f.tokens)
    ensures var tokens := f.tokens + Whole(lines).tokens;
            AllGood(tokens) && LinesOf(tokens) == LinesOf(f.tokens) + lines
  {
    hide LinesOf;
    if lines == [] {
      assert f.tokens + Whole(lines).tokens == f.tokens;
    } else {
      var last := |lines| - 1;
      CleanLines(f, lines[..last]);
      var before := f.tokens + Whole(lines[..last]).tokens;
      LinesOfAppend(before, Good(lines[last]));
      assert before + [Good(lines[last])] == f.tokens + Whole(lines).tokens;
      assert lines == lines[..last] + [lines[last]];
    }
  }

  lemma {:induction false} SchemasPrefix(tokens: seq<Token>)
    requires tokens != [] && SchemasOk(LinesOf(tokens))
    ensures SchemasOk(LinesOf(tokens[..|tokens|-1]))
  {
    var n := |tokens| - 1;
    LinesOfAppend(tokens[..n], tokens[n]);
    assert tokens == tokens[..n] + [tokens[n]];
    if tokens[n].Good? { SchemasOkAppend(LinesOf(tokens[..n]), tokens[n].line); }
  }

  lemma TornWritesLoadIff(f: File, lines: seq<Line>)
    requires Load(f).Ok? && lines != [] && f.tokens != [] && !f.terminated
    ensures Load(WriteAll(f, lines)).Ok? <==> |lines| == 1
  {
    WriteAllTorn(f, lines);
    var g, n := WriteAll(f, lines), |f.tokens| - 1;
    assert g.tokens[n] == Bad;
    if |lines| == 1 {
      assert g.tokens == f.tokens[..n] + [Bad];
      LinesOfAppend(f.tokens[..n], Bad);
      SchemasPrefix(f.tokens);
      LoadOkIff(g);
    } else {
      assert n < |g.tokens| - 1;
    }
  }

  lemma WritesAfterBadFail(f: File, lines: seq<Line>)
    requires f.tokens != [] && f.terminated && f.tokens[|f.tokens|-1].Bad? && lines != []
    ensures Load(WriteAll(f, lines)) == Err(CorruptLine)
  {
    WriteAllBad(f, lines);
    assert WriteAll(f, lines).tokens[..|f.tokens|][|f.tokens|-1] == Bad;
  }

  /**
    Lines appended to a file that loads leave it loadable exactly when its tail was clean, or one went onto a torn
    tail.
   */
  lemma LoadsAfterWritesIff(f: File, lines: seq<Line>)
    requires Load(f).Ok? && SchemasOk(lines)
    ensures Load(WriteAll(f, lines)).Ok? <==> lines == [] || CleanTail(f) || (!f.terminated && |lines| == 1)
  {
    if lines != [] {
      if CleanTail(f) {
        CleanWritesLoad(f, lines);
      } else if f.terminated {
        WritesAfterBadFail(f, lines);
      } else {
        TornWritesLoadIff(f, lines);
      }
    }
  }

  /** The first line written onto an unterminated tail is lost, together with the recovered line it was glued to. */
  lemma TornAppendLost(f: File, line: Line)
    requires Load(f).Ok? && f.tokens != [] && !f.terminated
    ensures Load(Write(f, line)) == Ok(TwoPass(LinesOf(f.tokens[..|f.tokens|-1])))
  {
    LinesOfAppend(f.tokens[..|f.tokens|-1], Bad);
    SchemasPrefix(f.tokens);
  }

  // ----- What a run of operations writes -----

  /**
    The file as lines written onto a base: the file the log was reopened on, or the image of the last compaction
    since.
   */
  datatype Trail = Trail(base: File, compacted: bool, lines: seq<Line>)

  function TrailFile(tr: Trail): File {
    WriteAll(tr.base, tr.lines)
  }

  function Wrote(tr: Trail, line: Line): Trail {
    tr.(lines := tr.lines + [line])
  }

  function EvictTrail(tr: Trail, w: Log, k: nat): Trail
    requires k <= |w.entries|
  {
    if k == 0 then tr else Wrote(tr, Ack(w.entries[k-1].rec.walSeq))
  }

  function PruneTrail(tr: Trail, cfg: Config, w: Log, now: int): Trail {
    if cfg.maxAge < 0 then tr else EvictTrail(tr, w, Expired(w.entries, now - cfg.maxAge))
  }

  function MakeRoomTrail(tr: Trail, cfg: Config, noDrop: bool, w: Log, need: int): Trail {
    if noDrop then tr else EvictTrail(tr, w, Surplus(w.entries, cfg.maxBytes - need))
  }

  function CompactTrail(tr: Trail, w: Log): Trail {
    if w.staleBytes < MIB || (w.bytes > 0 && w.staleBytes < w.bytes / 2) then tr
    else Trail(Whole(Image(Recs(w.entries), w.nextSeq)), true, [])
  }

  function AppendTrail(tr: Trail, cfg: Config, noDrop: bool, w: Log, d: Decision, decidedAt: Option<int>, now: int)
    : Trail
  {
    if d.action.OtherAction? then tr
    else
      AppendPrunedTrail(PruneTrail(tr, cfg, w, now), cfg, noDrop, Prune(cfg, w, now), Stamped(w, d, decidedAt, now))
  }

  function AppendPrunedTrail(tr: Trail, cfg: Config, noDrop: bool, pruned: Log, rec: Decision): Trail {
    var size := LineBytes(cfg, rec);
    if size > MAX_LINE_BYTES then tr
    else
      var roomy := MakeRoom(cfg, noDrop, pruned, size);
      var tr' := MakeRoomTrail(tr, cfg, noDrop, pruned, size);
      if roomy.bytes + size > cfg.maxBytes then tr'
      else CompactTrail(Wrote(tr', Dec(rec)), Add(roomy, Entry(rec, size)))
  }

  function AckTrail(tr: Trail, w: Log, through: int): Trail {
    var k := if through <= 0 then 0 else Acked(w.entries, through);
    if k == 0 then tr else CompactTrail(Wrote(tr, Ack(through)), Remove(w, k, through))
  }

  /**
    What opening a file that loads writes onto it: its meta line when it is empty, acks for what does not stay
    otherwise.
   */
  function ReopenTrail(cfg: Config, noDrop: bool, f: File, loaded: Loaded, image: nat, now: int): Trail {
    var entries := Sized(cfg, loaded.recs);
    var w := Log(entries, loaded.nextSeq, Sum(entries), 0, f, image);
    if f.tokens == [] then Trail(f, false, [Meta(WAL_SCHEMA_VERSION, w.nextSeq)])
    else MakeRoomTrail(PruneTrail(Trail(f, false, []), cfg, w, now), cfg, noDrop, Prune(cfg, w, now), 0)
  }

  /** What the operations of a run without restarts have written since the log was opened. */
  function RunTrail(tr: Trail, cfg: Config, n: Node, ops: seq<Op>): Trail {
    if ops == [] then tr
    else
      var before, op := Run(cfg, n, ops[..|ops|-1]), ops[|ops|-1];
      var tr' := RunTrail(tr, cfg, n, ops[..|ops|-1]);
      match op
      case DoAppend(d, decidedAt, now) => AppendTrail(tr', cfg, before.noDrop, before.log, d, decidedAt, now)
      case DoAck(through) => AckTrail(tr', before.log, through)
      case DoSetNoDrop(_) => tr'
      case DoRestart(_) => tr'
  }

  lemma WriteAllSnoc(f: File, lines: seq<Line>, line: Line)
    ensures WriteAll(f, lines + [line]) == Write(WriteAll(f, lines), line)
  {
    assert (lines + [line])[..|lines|] == lines;
  }

  /** The trail describes the file, and all it wrote can be read by this version. */
  ghost predicate Follows(tr: Trail, w: Log) {
    TrailFile(tr) == w.file && SchemasOk(tr.lines) && (tr.compacted ==> CleanTail(tr.base) && Load(tr.base).Ok?)
  }

  lemma WroteFollows(tr: Trail, w: Log, w': Log, line: Line)
    requires Follows(tr, w) && w'.file == Write(w.file, line) && SchemaOk(line)
    ensures Follows(Wrote(tr, line), w')
  {
    WriteAllSnoc(tr.base, tr.lines, line);
    SchemasOkAppend(tr.lines, line);
  }

  lemma EvictFollows(tr: Trail, w: Log, k: nat)
    requires Follows(tr, w) && k <= |w.entries|
    ensures Follows(EvictTrail(tr, w, k), Evict(w, k))
  {
    hide Follows;
    hide Sum;
    hide Write;
    if k > 0 { WroteFollows(tr, w, Evict(w, k), Ack(w.entries[k-1].rec.walSeq)); }
  }

  lemma PruneFollows(tr: Trail, cfg: Config, w: Log, now: int)
    requires Follows(tr, w)
    ensures Follows(PruneTrail(tr, cfg, w, now), Prune(cfg, w, now))
  {
    hide Follows;
    if cfg.maxAge >= 0 { EvictFollows(tr, w, Expired(w.entries, now - cfg.maxAge)); }
  }

  lemma MakeRoomFollows(tr: Trail, cfg: Config, noDrop: bool, w: Log, need: int)
    requires Follows(tr, w)
    ensures Follows(MakeRoomTrail(tr, cfg, noDrop, w, need), MakeRoom(cfg, noDrop, w, need))
  {
    hide Follows;
    if !noDrop { EvictFollows(tr, w, Surplus(w.entries, cfg.maxBytes - need)); }
  }

  lemma ImageLoads(recs: seq<Decision>, next: int)
    ensures CleanTail(Whole(Image(recs, next))) && Load(Whole(Image(recs, next))).Ok?
  {
    WholeLines(Image(recs, next));
  }

  lemma CompactFollows(tr: Trail, w: Log)
    requires Follows(tr, w)
    ensures Follows(CompactTrail(tr, w), MaybeCompact(w))
  {
    ImageLoads(Recs(w.entries), w.nextSeq);
  }

  lemma AppendPrunedFollows(tr: Trail, cfg: Config, noDrop: bool, pruned: Log, rec: Decision)
    requires Follows(tr, pruned)
    ensures Follows(AppendPrunedTrail(tr, cfg, noDrop, pruned, rec), AppendPruned(cfg, noDrop, pruned, rec).0)
  {
    hide Follows;
    hide MakeRoom;
    hide MakeRoomTrail;
    hide CompactTrail;
    hide MaybeCompact;
    hide Write;
    var size := LineBytes(cfg, rec);
    var roomy := MakeRoom(cfg, noDrop, pruned, size);
    var tr' := MakeRoomTrail(tr, cfg, noDrop, pruned, size);
    MakeRoomFollows(tr, cfg, noDrop, pruned, size);
    WroteFollows(tr', roomy, Add(roomy, Entry(rec, size)), Dec(rec));
    CompactFollows(Wrote(tr', Dec(rec)), Add(roomy, Entry(rec, size)));
  }

  lemma AckFollows(tr: Trail, w: Log, through: int)
    requires Follows(tr, w)
    ensures Follows(AckTrail(tr, w, through), AckThrough(w, through))
  {
    hide Follows;
    hide CompactTrail;
    hide MaybeCompact;
    hide Write;
    hide Sum;
    var k := if through <= 0 then 0 else Acked(w.entries, through);
    if k > 0 {
      WroteFollows(tr, w, Remove(w, k, through), Ack(through));
      CompactFollows(Wrote(tr, Ack(through)), Remove(w, k, through));
    }
  }

  predicate NoRestart(ops: seq<Op>) {
    forall i :: 0 <= i < |ops| ==> !ops[i].DoRestart?
  }

  lemma {:induction false} RunFollows(tr: Trail, cfg: Config, n: Node, ops: seq<Op>)
    requires Follows(tr, n.log) && NoRestart(ops)
    ensures Follows(RunTrail(tr, cfg, n, ops), Run(cfg, n, ops).log)
  {
    hide Follows;
    hide Append;
    hide AppendTrail;
    hide AckThrough;
    hide AckTrail;
    if ops != [] {
      var before, op := Run(cfg, n, ops[..|ops|-1]), ops[|ops|-1];
      var tr' := RunTrail(tr, cfg, n, ops[..|ops|-1]);
      RunFollows(tr, cfg, n, ops[..|ops|-1]);
      match op
      case DoAppend(d, decidedAt, now) => AppendFollows(tr', cfg, before.noDrop, before.log, d, decidedAt, now);
      case DoAck(through) => AckFollows(tr', before.log, through);
      case DoSetNoDrop(_) =>
    }
  }

  lemma AppendFollows(tr: Trail, cfg: Config, noDrop: bool, w: Log, d: Decision, decidedAt: Option<int>, now: int)
    requires Follows(tr, w)
    ensures Follows(AppendTrail(tr, cfg, noDrop, w, d, decidedAt, now), Append(cfg, noDrop, w, d, decidedAt, now).0)
  {
    hide Follows;
    hide Prune;
    hide PruneTrail;
    hide AppendPruned;
    hide AppendPrunedTrail;
    PruneFollows(tr, cfg, w, now);
    AppendPrunedFollows(PruneTrail(tr, cfg, w, now), cfg, noDrop, Prune(cfg, w, now), Stamped(w, d, decidedAt, now));
  }

  lemma ReopenFollows(cfg: Config, noDrop: bool, f: File, image: nat, now: int)
    requires Load(f).Ok? && Reopen(cfg, noDrop, f, image, now).Ok?
    ensures Follows(ReopenTrail(cfg, noDrop, f, Load(f).value, image, now), Reopen(cfg, noDrop, f, image, now).value)
  {
    hide Load;
    hide Prune;
    hide MakeRoom;
    hide PruneTrail;
    hide MakeRoomTrail;
    var entries := Sized(cfg, Load(f).value.recs);
    var w := Log(entries, Load(f).value.nextSeq, Sum(entries), 0, f, image);
    var tr := Trail(f, false, []);
    if f.tokens == [] {
      WroteFollows(tr, w, Reopen(cfg, noDrop, f, image, now).value, Meta(WAL_SCHEMA_VERSION, w.nextSeq));
    } else {
      PruneFollows(tr, cfg, w, now);
      MakeRoomFollows(PruneTrail(tr, cfg, w, now), cfg, noDrop, Prune(cfg, w, now), 0);
    }
  }

  /**
    Since the log was opened on f the operations have written nothing, at most one line onto a torn tail, or
    compacted.
   */
  predicate Unspoilt(f: File, tr: Trail) {
    tr.compacted || CleanTail(f) || tr.lines == [] || (!f.terminated && |tr.lines| == 1)
  }

  /**
    After opening a log on any file that loads, and after any run of operations on it, the file loads if and only if its
    tail was clean, or a compaction has happened since, or nothing was written, or a single line went onto an
    unterminated tail.
   */
  lemma LoadsAfterRunIff(cfg: Config, forced: bool, f: File, image: nat, now: int, ops: seq<Op>)
    requires Load(f).Ok? && Reopen(cfg, forced, f, image, now).Ok? && NoRestart(ops)
    ensures var n := Node(Reopen(cfg, forced, f, image, now).value, forced, forced);
            var tr := RunTrail(ReopenTrail(cfg, forced, f, Load(f).value, image, now), cfg, n, ops);
            Load(Run(cfg, n, ops).log.file).Ok? <==> Unspoilt(f, tr)
  {
    hide Load;
    hide Reopen;
    hide Run;
    hide RunTrail;
    hide ReopenTrail;
    var n := Node(Reopen(cfg, forced, f, image, now).value, forced, forced);
    var start := ReopenTrail(cfg, forced, f, Load(f).value, image, now);
    var tr := RunTrail(start, cfg, n, ops);
    ReopenFollows(cfg, forced, f, image, now);
    RunFollows(start, cfg, n, ops);
    OpenedBase(cfg, forced, f, Load(f).value, image, now);
    RunBase(start, cfg, n, ops);
    LoadsAfterWritesIff(tr.base, tr.lines);
  }

  lemma OpenedBase(cfg: Config, noDrop: bool, f: File, loaded: Loaded, image: nat, now: int)
    ensures var tr := ReopenTrail(cfg, noDrop, f, loaded, image, now); tr.base == f && !tr.compacted
  {
  }

  lemma {:induction false} RunBase(tr: Trail, cfg: Config, n: Node, ops: seq<Op>)
    ensures !RunTrail(tr, cfg, n, ops).compacted ==> !tr.compacted && RunTrail(tr, cfg, n, ops).base == tr.base
  {
    hide Image;
    hide Run;
    if ops != [] { RunBase(tr, cfg, n, ops[..|ops|-1]); }
  }

  /** A compaction of consecutive records repairs the file whatever state it was in: it then loads to exactly those. */
  lemma CompactionRepairs(w: Log)
    requires Contiguous(Recs(w.entries), w.nextSeq)
    ensures Load(Compact(w).file) == Ok(Loaded(Recs(w.entries), w.nextSeq))
  {
    CompactMirrors(w);
    LoadsBack(Compact(w));
  }
}
