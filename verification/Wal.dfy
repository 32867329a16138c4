/**
  The edge's bounded decision log: in-memory entries mirrored by an append-only file,
  with drop-oldest or no-drop capacity, age pruning and compaction.
 */
module Wal {
  import opened Text
  import opened WalLog

  const MIB := 0x10_0000
  const MAX_LINE_BYTES := MIB

  datatype Entry = Entry(rec: Decision, size: int)

  /**
    shared(d) is the length of what both JSON encodings of d print: the fields of a log line and of a bare decision
    that neither omits, with braces and newline. maxAge below zero disables age pruning.
   */
  datatype Config = Config(maxBytes: int, maxAge: int, shared: Decision -> nat)

  /**
    A dec line adds only its type tag ("t":"dec",) to the shared part: zero score, false flag and empty strings are
    omitted.
   */
  function LineBytes(cfg: Config, d: Decision): int {
    cfg.shared(d) + 10
  }

  /**
    The estimate made on reload encodes the bare decision: no tag, but "score":0, "blacklisted":false and
    "fingerprint":"" in full.
   */
  function EstimateBytes(cfg: Config, d: Decision): int {
    cfg.shared(d) + (if d.score == 0 then 10 else 0) + (if d.blacklisted then 0 else 20) +
      (if d.fingerprint == [] then 17 else 0)
  }

  /** image counts the lines of the last compaction, which were synced to disk before the rename. */
  datatype Log = Log(entries: seq<Entry>, nextSeq: int, bytes: int, staleBytes: int, file: File, image: nat)

  function Recs(entries: seq<Entry>): (r: seq<Decision>)
    ensures |r| == |entries| && forall i :: 0 <= i < |r| ==> r[i] == entries[i].rec
  {
    seq(|entries|, i requires 0 <= i < |entries| => entries[i].rec)
  }

  function Sum(entries: seq<Entry>): int {
    if entries == [] then 0 else entries[0].size + Sum(entries[1..])
  }

  // ----- Steps that write one line or swap the file -----

  /** Removes the k oldest entries and records it with one ack line. */
  function Remove(w: Log, k: nat, through: int): Log
    requires k <= |w.entries|
  {
    Log(w.entries[k..], w.nextSeq, w.bytes - Sum(w.entries[..k]), w.staleBytes + Sum(w.entries[..k]),
        Write(w.file, Ack(through)), w.image)
  }

  function Add(w: Log, e: Entry): Log {
    Log(w.entries + [e], w.nextSeq + 1, w.bytes + e.size, w.staleBytes, Write(w.file, Dec(e.rec)), w.image)
  }

  function Compact(w: Log): Log {
    w.(file := Whole(Image(Recs(w.entries), w.nextSeq)), image := 1 + |w.entries|, staleBytes := 0)
  }

  // ----- The public operations -----

  function MaybeCompact(w: Log): Log {
    if w.staleBytes < MIB || (w.bytes > 0 && w.staleBytes < w.bytes / 2) then w else Compact(w)
  }

  /** Evicts the k oldest with an ack for the last of them; nothing is written when k is 0. */
  function Evict(w: Log, k: nat): Log
    requires k <= |w.entries|
  {
    if k == 0 then w else Remove(w, k, w.entries[k-1].rec.walSeq)
  }

  /** How many of the oldest entries go until the rest fits in room. */
  function Surplus(entries: seq<Entry>, room: int): (k: nat)
    ensures k <= |entries|
  {
    if entries == [] || Sum(entries) <= room then 0 else 1 + Surplus(entries[1..], room)
  }

  /** Length of the expired prefix. */
  function Expired(entries: seq<Entry>, cutoff: int): (k: nat)
    ensures k <= |entries|
  {
    if entries == [] || entries[0].rec.decidedAt >= cutoff then 0 else 1 + Expired(entries[1..], cutoff)
  }

  /** Length of the prefix with sequence numbers up to seq. */
  function Acked(entries: seq<Entry>, through: int): (k: nat)
    ensures k <= |entries|
  {
    if entries == [] || entries[0].rec.walSeq > through then 0 else 1 + Acked(entries[1..], through)
  }

  function Prune(cfg: Config, w: Log, now: int): Log {
    if cfg.maxAge < 0 then w else Evict(w, Expired(w.entries, now - cfg.maxAge))
  }

  function MakeRoom(cfg: Config, noDrop: bool, w: Log, need: int): Log {
    if noDrop then w else Evict(w, Surplus(w.entries, cfg.maxBytes - need))
  }

  datatype AppendResult = Appended | InvalidAction | LineTooLong | Full

  function Stamped(w: Log, d: Decision, decidedAt: Option<int>, now: int): Decision {
    d.(walSeq := w.nextSeq, decidedAt := if decidedAt.Some? then decidedAt.value else now)
  }

  /** The part of Append after pruning. */
  function AppendPruned(cfg: Config, noDrop: bool, pruned: Log, rec: Decision): (Log, AppendResult) {
    var size := LineBytes(cfg, rec);
    if size > MAX_LINE_BYTES then (pruned, LineTooLong)
    else
      var roomy := MakeRoom(cfg, noDrop, pruned, size);
      if roomy.bytes + size > cfg.maxBytes then (roomy, Full)
      else (MaybeCompact(Add(roomy, Entry(rec, size))), Appended)
  }

  function Append(cfg: Config, noDrop: bool, w: Log, d: Decision, decidedAt: Option<int>, now: int)
    : (Log, AppendResult)
  {
    if d.action.OtherAction? then (w, InvalidAction)
    else
      AppendPruned(cfg, noDrop, Prune(cfg, w, now), Stamped(w, d, decidedAt, now))
  }

  function AckThrough(w: Log, through: int): Log {
    var k := if through <= 0 then 0 else Acked(w.entries, through);
    if k == 0 then w else MaybeCompact(Remove(w, k, through))
  }

  function Pending(w: Log, n: int): seq<Decision> {
    Recs(w.entries)[..if n <= 0 then 0 else if n > |w.entries| then |w.entries| else n]
  }

  // ----- The invariant -----

  predicate Healthy(f: File) {
    f.terminated && AllGood(f.tokens)
  }

  /** The file mirrors memory: replaying it gives the live records and the next sequence number. */
  ghost predicate Mirrors(w: Log) {
    && Healthy(w.file)
    && Legal(LinesOf(w.file.tokens), w.image)
    && OnePass(LinesOf(w.file.tokens)) == Loaded(Recs(w.entries), w.nextSeq)
  }

  ghost predicate Counted(w: Log) {
    && w.bytes == Sum(w.entries) && w.staleBytes >= 0
    && forall i :: 0 <= i < |w.entries| ==> w.entries[i].size >= 0
  }

  ghost predicate Inv(maxBytes: int, w: Log) {
    Mirrors(w) && Counted(w) && w.bytes <= maxBytes && Contiguous(Recs(w.entries), w.nextSeq)
  }

  // ----- Sums -----

  lemma {:induction false} SumSplit(entries: seq<Entry>, k: nat)
    requires k <= |entries|
    ensures Sum(entries) == Sum(entries[..k]) + Sum(entries[k..])
  {
    if k > 0 {
      SumSplit(entries[1..], k - 1);
      assert entries[..k][1..] == entries[1..][..k-1] && entries[k..] == entries[1..][k-1..];
    } else {
      assert entries[0..] == entries;
    }
  }

  lemma SumAppend(entries: seq<Entry>, e: Entry)
    ensures Sum(entries + [e]) == Sum(entries) + e.size
  {
    SumSplit(entries + [e], |entries|);
    assert (entries + [e])[..|entries|] == entries && (entries + [e])[|entries|..] == [e];
    assert [e][1..] == [];
  }

  lemma {:induction false} SumNonNegative(entries: seq<Entry>)
    requires forall i :: 0 <= i < |entries| ==> entries[i].size >= 0
    ensures Sum(entries) >= 0
  {
    if entries != [] { SumNonNegative(entries[1..]); }
  }

  // ----- Every step keeps the file a mirror of memory -----

  lemma WriteHealthy(f: File, line: Line)
    requires Healthy(f)
    ensures Healthy(Write(f, line)) && LinesOf(Write(f, line).tokens) == LinesOf(f.tokens) + [line]
  {
    hide LinesOf;
    LinesOfAppend(f.tokens, Good(line));
  }

  lemma LegalExtends(lines: seq<Line>, image: nat, line: Line)
    requires Legal(lines, image) && LegalLine(line, NextSeq(lines))
    ensures Legal(lines + [line], image) && OnePass(lines + [line]) == ReplayLine(OnePass(lines), line)
  {
    LegalImageShort(lines, image);
    assert (lines + [line])[..|lines|] == lines;
  }

  lemma {:induction false} LegalImageShort(lines: seq<Line>, image: nat)
    requires Legal(lines, image)
    ensures image <= |lines|
    decreases |lines|
  {
    if |lines| > image { LegalImageShort(lines[..|lines|-1], image); }
  }

  /** through separates the k oldest entries from the rest. */
  predicate Separates(w: Log, k: nat, through: int) {
    && 0 < k <= |w.entries|
    && w.entries[k-1].rec.walSeq <= through < w.nextSeq
    && (k < |w.entries| ==> through < w.entries[k].rec.walSeq)
  }

  lemma {:induction false} DropThroughIs(recs: seq<Decision>, next: int, k: nat, t: int)
    requires Contiguous(recs, next) && k <= |recs|
    requires k > 0 ==> recs[k-1].walSeq <= t
    requires k < |recs| ==> t < recs[k].walSeq
    ensures DropThrough(recs, t) == recs[k..]
  {
    if k > 0 {
      DropThroughIs(recs[1..], next, k - 1, t);
      assert recs[1..][k-1..] == recs[k..];
    } else {
      assert recs[0..] == recs;
    }
  }

  /** Writing a legal line mirrors the same change of memory. */
  lemma WriteMirrors(w: Log, w': Log, line: Line)
    requires Mirrors(w) && LegalLine(line, w.nextSeq)
    requires w'.file == Write(w.file, line) && w'.image == w.image
    requires Loaded(Recs(w'.entries), w'.nextSeq) == ReplayLine(Loaded(Recs(w.entries), w.nextSeq), line)
    ensures Mirrors(w')
  {
    var lines := LinesOf(w.file.tokens);
    WriteHealthy(w.file, line);
    TwoPassIsOnePass(lines, w.image);
    LegalExtends(lines, w.image, line);
  }

  lemma RemoveRecs(entries: seq<Entry>, next: int, k: nat, through: int)
    requires Contiguous(Recs(entries), next) && 0 < k <= |entries|
    requires entries[k-1].rec.walSeq <= through && (k < |entries| ==> through < entries[k].rec.walSeq)
    ensures DropThrough(Recs(entries), through) == Recs(entries[k..])
    ensures Contiguous(Recs(entries[k..]), next)
  {
    ContiguousTail(Recs(entries), next, k);
    RecsTail(entries, k);
    hide Contiguous;
    hide Recs;
    DropThroughIs(Recs(entries), next, k, through);
  }

  lemma RecsTail(entries: seq<Entry>, k: nat)
    requires k <= |entries|
    ensures Recs(entries)[k..] == Recs(entries[k..])
  {
    hide Recs;
  }

  lemma ContiguousTail(recs: seq<Decision>, next: int, k: nat)
    requires Contiguous(recs, next) && k <= |recs|
    ensures Contiguous(recs[k..], next)
  {
  }

  lemma RemoveMirrors(w: Log, k: nat, through: int)
    requires Mirrors(w) && Contiguous(Recs(w.entries), w.nextSeq) && Separates(w, k, through)
    ensures Mirrors(Remove(w, k, through))
    ensures Contiguous(Recs(w.entries[k..]), w.nextSeq)
  {
    RemoveRecs(w.entries, w.nextSeq, k, through);
    assert 0 < through by { assert Recs(w.entries)[k-1].walSeq > 0; }
    WriteMirrors(w, Remove(w, k, through), Ack(through));
  }

  lemma RemoveCounted(w: Log, k: nat, through: int)
    requires Counted(w) && k <= |w.entries|
    ensures Counted(Remove(w, k, through))
    ensures Remove(w, k, through).bytes <= w.bytes
  {
    SumSplit(w.entries, k);
    SumNonNegative(w.entries[..k]);
  }

  lemma RemoveKeeps(cap: int, w: Log, k: nat, through: int)
    requires Inv(cap, w) && Separates(w, k, through)
    ensures Inv(cap, Remove(w, k, through))
  {
    RemoveMirrors(w, k, through);
    RemoveCounted(w, k, through);
  }

  lemma AddMirrors(w: Log, e: Entry)
    requires Mirrors(w) && Contiguous(Recs(w.entries), w.nextSeq) && e.rec.walSeq == w.nextSeq
    ensures Mirrors(Add(w, e)) && Contiguous(Recs(w.entries + [e]), w.nextSeq + 1)
  {
    assert Recs(w.entries + [e]) == Recs(w.entries) + [e.rec];
    WriteMirrors(w, Add(w, e), Dec(e.rec));
  }

  lemma AddKeeps(cap: int, w: Log, e: Entry)
    requires Inv(cap, w) && e.rec.walSeq == w.nextSeq && e.size >= 0 && w.bytes + e.size <= cap
    ensures Inv(cap, Add(w, e))
  {
    AddMirrors(w, e);
    SumAppend(w.entries, e);
  }

  lemma ImageLegal(recs: seq<Decision>, next: int)
    requires Contiguous(recs, next)
    ensures Legal(Image(recs, next), 1 + |recs|) && OnePass(Image(recs, next)) == Loaded(recs, next)
  {
    ImageReplay(recs, next, |recs|);
    assert DecLines(recs)[..|recs|] == DecLines(recs) && recs[..|recs|] == recs;
  }

  lemma CompactMirrors(w: Log)
    requires Contiguous(Recs(w.entries), w.nextSeq)
    ensures Mirrors(Compact(w))
  {
    hide Legal;
    hide OnePass;
    hide Image;
    ImageLegal(Recs(w.entries), w.nextSeq);
    WholeLines(Image(Recs(w.entries), w.nextSeq));
  }

  lemma MaybeCompactKeeps(cap: int, w: Log)
    requires Inv(cap, w)
    ensures Inv(cap, MaybeCompact(w))
  {
    CompactMirrors(w);
  }

  lemma EvictKeeps(cap: int, w: Log, k: nat)
    requires Inv(cap, w) && k <= |w.entries|
    ensures Inv(cap, Evict(w, k)) && Evict(w, k).bytes <= w.bytes
    ensures Evict(w, k).entries == w.entries[k..] && Evict(w, k).nextSeq == w.nextSeq
  {
    if k > 0 {
      assert w.entries[k-1].rec == Recs(w.entries)[k-1];
      if k < |w.entries| { assert w.entries[k].rec == Recs(w.entries)[k]; }
      RemoveKeeps(cap, w, k, w.entries[k-1].rec.walSeq);
      RemoveCounted(w, k, w.entries[k-1].rec.walSeq);
    }
  }

  lemma PruneKeeps(cfg: Config, cap: int, w: Log, now: int)
    requires Inv(cap, w)
    ensures Inv(cap, Prune(cfg, w, now)) && Prune(cfg, w, now).nextSeq == w.nextSeq
  {
    hide Inv;
    hide Sum;
    hide Expired;
    if cfg.maxAge >= 0 {
      EvictedKeeps(cap, w, Prune(cfg, w, now), Expired(w.entries, now - cfg.maxAge));
    }
  }

  lemma MakeRoomKeeps(cfg: Config, noDrop: bool, w: Log, need: int)
    requires Inv(cfg.maxBytes, w)
    ensures Inv(cfg.maxBytes, MakeRoom(cfg, noDrop, w, need)) && MakeRoom(cfg, noDrop, w, need).nextSeq == w.nextSeq
  {
    hide Inv; hide Sum; hide Surplus;
    if !noDrop {
      EvictedKeeps(cfg.maxBytes, w, MakeRoom(cfg, noDrop, w, need), Surplus(w.entries, cfg.maxBytes - need));
    }
  }

  lemma EvictedKeeps(cap: int, w: Log, r: Log, k: nat)
    requires Inv(cap, w) && k <= |w.entries| && r == Evict(w, k)
    ensures Inv(cap, r) && r.nextSeq == w.nextSeq
  {
    EvictKeeps(cap, w, k);
  }

  lemma AppendKeeps(cfg: Config, noDrop: bool, w: Log, d: Decision, decidedAt: Option<int>, now: int)
    requires Inv(cfg.maxBytes, w)
    ensures Inv(cfg.maxBytes, Append(cfg, noDrop, w, d, decidedAt, now).0)
  {
    var pruned := Prune(cfg, w, now);
    PruneKeeps(cfg, cfg.maxBytes, w, now);
    var rec := Stamped(w, d, decidedAt, now);
    AppendPrunedKeeps(cfg, noDrop, pruned, rec);
  }

  lemma AppendPrunedKeeps(cfg: Config, noDrop: bool, pruned: Log, rec: Decision)
    requires Inv(cfg.maxBytes, pruned) && rec.walSeq == pruned.nextSeq
    ensures Inv(cfg.maxBytes, AppendPruned(cfg, noDrop, pruned, rec).0)
  {
    hide Inv;
    hide MakeRoom;
    hide Add;
    hide MaybeCompact;
    var size := LineBytes(cfg, rec);
    var roomy := MakeRoom(cfg, noDrop, pruned, size);
    MakeRoomKeeps(cfg, noDrop, pruned, size);
    if roomy.bytes + size <= cfg.maxBytes {
      var e := Entry(rec, size);
      AddKeeps(cfg.maxBytes, roomy, e);
      MaybeCompactKeeps(cfg.maxBytes, Add(roomy, e));
    }
  }

  lemma {:induction false} AckedSeparates(entries: seq<Entry>, through: int)
    ensures var k := Acked(entries, through);
            && (k > 0 ==> entries[k-1].rec.walSeq <= through)
            && (k < |entries| ==> through < entries[k].rec.walSeq)
  {
    if entries != [] && entries[0].rec.walSeq <= through {
      AckedSeparates(entries[1..], through);
    }
  }

  lemma AckKeeps(cap: int, w: Log, through: int)
    requires Inv(cap, w) && through < w.nextSeq
    ensures Inv(cap, AckThrough(w, through))
  {
    var k := if through <= 0 then 0 else Acked(w.entries, through);
    if k > 0 {
      AckedSeparates(w.entries, through);
      RemoveKeeps(cap, w, k, through);
      MaybeCompactKeeps(cap, Remove(w, k, through));
    }
  }

  lemma {:induction false} LegalSchemas(lines: seq<Line>, image: nat)
    requires Legal(lines, image)
    ensures SchemasOk(lines)
    decreases |lines|
  {
    if |lines| > image {
      LegalSchemas(lines[..|lines|-1], image);
      forall i | 0 <= i < |lines| ensures SchemaOk(lines[i]) {
        if i < |lines| - 1 { assert lines[i] == lines[..|lines|-1][i]; }
      }
    }
  }

  /** Loading the file of a running log gives exactly its live records and next sequence number. */
  lemma LoadsBack(w: Log)
    requires Mirrors(w)
    ensures Load(w.file) == Ok(Loaded(Recs(w.entries), w.nextSeq))
  {
    TwoPassIsOnePass(LinesOf(w.file.tokens), w.image);
    LegalSchemas(LinesOf(w.file.tokens), w.image);
  }

  /** Compaction preserves meaning: the file before and the file after the rename load alike. */
  lemma CompactPreservesLoad(w: Log)
    requires Mirrors(w) && Contiguous(Recs(w.entries), w.nextSeq)
    ensures Load(Compact(w).file) == Load(w.file)
  {
    CompactMirrors(w);
    LoadsBack(w);
    LoadsBack(Compact(w));
  }
}
