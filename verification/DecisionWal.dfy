/**
  The decision log as the edge runs it: fields updated in place by loops, each method proved against the log's steps.
 */
module DecisionWal {
  import opened Text
  import opened WalLog
  import opened Wal
  import opened WalReopen
  import opened WalRuns

  /** The guard on the byte counter; the counter is exact, so it never cuts anything off. */
  function AtLeastZero(n: int): int {
    if n < 0 then 0 else n
  }

  lemma SumTake(entries: seq<Entry>, k: nat)
    requires k < |entries|
    ensures Sum(entries[..k+1]) == Sum(entries[..k]) + entries[k].size
  {
    SumAppend(entries[..k], entries[k]);
    assert entries[..k+1] == entries[..k] + [entries[k]];
  }

  class DecisionWAL {
    const cfg: Config
    const forcedNoDrop: bool
    var noDrop: bool
    var nextSeq: int
    var entries: seq<Entry>
    var bytes: int
    var staleBytes: int
    var file: File
    ghost var image: nat

    ghost function State(): Log
      reads this
    {
      Log(entries, nextSeq, bytes, staleBytes, file, image)
    }

    ghost predicate Valid()
      reads this
    {
      Inv(cfg.maxBytes, State()) && (forcedNoDrop ==> noDrop)
    }

    /** A log on a new file. */
    constructor (cfg: Config, forcedNoDrop: bool)
      requires cfg.maxBytes >= 0
      ensures Valid() && State() == FreshLog()
      ensures this.cfg == cfg && this.forcedNoDrop == forcedNoDrop && noDrop == forcedNoDrop
    {
      this.cfg, this.forcedNoDrop, noDrop := cfg, forcedNoDrop, forcedNoDrop;
      nextSeq, entries, bytes, staleBytes, image := 1, [], 0, 0, 1;
      file := Write(File([], true), Meta(WAL_SCHEMA_VERSION, 1));
      new;
      FreshInv(cfg);
    }

    /** Policy never clears the local override. */
    method SetNoDrop(policy: bool)
      requires Valid()
      modifies this`noDrop
      ensures Valid() && noDrop == (forcedNoDrop || policy)
    {
      var next := forcedNoDrop || policy;
      if noDrop == next { return; }
      noDrop := next;
    }

    /** Drops the oldest entry from memory only; the caller writes one coalesced ack. */
    method RemoveOldest() returns (droppedSeq: int, ok: bool)
      requires Counted(State())
      modifies this`entries, this`bytes, this`staleBytes
      ensures ok <==> old(entries) != []
      ensures !ok ==> State() == old(State())
      ensures ok ==> droppedSeq == old(entries)[0].rec.walSeq && entries == old(entries)[1..]
      ensures ok ==> bytes == old(bytes) - old(entries)[0].size && staleBytes == old(staleBytes) + old(entries)[0].size
      ensures Counted(State())
    {
      if entries == [] { return 0, false; }
      droppedSeq := entries[0].rec.walSeq;
      var removed := entries[0].size;
      SumNonNegative(entries[1..]);
      bytes := AtLeastZero(bytes - removed);
      staleBytes := staleBytes + removed;
      entries := entries[1..];
      ok := true;
    }

    method DropForCapacity(need: int) returns (full: bool)
      requires Counted(State())
      modifies this`entries, this`bytes, this`staleBytes, this`file
      ensures State() == MakeRoom(cfg, noDrop, old(State()), need)
      ensures full <==> bytes + need > cfg.maxBytes
    {
      hide Write;
      ghost var w := State();
      ghost var k := 0;
      var lastDropped, dropped := 0, false;
      while bytes + need > cfg.maxBytes && |entries| > 0
        invariant 0 <= k <= |w.entries| && entries == w.entries[k..]
        invariant Counted(State()) && file == w.file
        invariant bytes == w.bytes - Sum(w.entries[..k]) && staleBytes == w.staleBytes + Sum(w.entries[..k])
        invariant Surplus(w.entries, cfg.maxBytes - need) == k + Surplus(entries, cfg.maxBytes - need)
        invariant dropped <==> k > 0
        invariant noDrop ==> k == 0
        invariant dropped ==> lastDropped == w.entries[k-1].rec.walSeq
        decreases |entries|
      {
        if noDrop { return true; }
        SumTake(w.entries, k);
        var seqNo, _ := RemoveOldest();
        assert w.entries[k..][1..] == w.entries[k+1..];
        lastDropped, dropped := seqNo, true;
        k := k + 1;
      }
      if dropped {
        file := Write(file, Ack(lastDropped));
      }
      full := bytes + need > cfg.maxBytes;
    }

    method PruneExpired(now: int)
      requires Counted(State())
      modifies this`entries, this`bytes, this`staleBytes, this`file
      ensures State() == Prune(cfg, old(State()), now)
    {
      if cfg.maxAge < 0 { return; }
      var cutoff := now - cfg.maxAge;
      ghost var w := State();
      ghost var k := 0;
      var lastDropped, dropped := 0, false;
      while |entries| > 0
        invariant 0 <= k <= |w.entries| && entries == w.entries[k..]
        invariant Counted(State()) && file == w.file
        invariant bytes == w.bytes - Sum(w.entries[..k]) && staleBytes == w.staleBytes + Sum(w.entries[..k])
        invariant Expired(w.entries, cutoff) == k + Expired(entries, cutoff)
        invariant dropped <==> k > 0
        invariant dropped ==> lastDropped == w.entries[k-1].rec.walSeq
        decreases |entries|
      {
        if entries[0].rec.decidedAt >= cutoff { break; }
        SumTake(w.entries, k);
        var seqNo, _ := RemoveOldest();
        assert w.entries[k..][1..] == w.entries[k+1..];
        lastDropped, dropped := seqNo, true;
        k := k + 1;
      }
      if !dropped { return; }
      file := Write(file, Ack(lastDropped));
    }

    method CompactFile()
      modifies this`file, this`staleBytes, this`image
      ensures State() == Compact(old(State()))
    {
      var lines := [Meta(WAL_SCHEMA_VERSION, nextSeq)];
      ghost var recs := Recs(entries);
      for i := 0 to |entries|
        invariant lines == [Meta(WAL_SCHEMA_VERSION, nextSeq)] + DecLines(recs)[..i]
      {
        lines := lines + [Dec(entries[i].rec)];
      }
      assert DecLines(recs)[..|entries|] == DecLines(recs);
      file, staleBytes, image := Whole(lines), 0, 1 + |entries|;
    }

    method CompactIfStale()
      modifies this`file, this`staleBytes, this`image
      ensures State() == MaybeCompact(old(State()))
    {
      if staleBytes < MIB { return; }
      if bytes > 0 && staleBytes < bytes / 2 { return; }
      CompactFile();
    }

    /** Assigns the next sequence number, making room as configured; on an error the number is not used up. */
    method Append(d: Decision, decidedAt: Option<int>, now: int) returns (r: AppendResult)
      requires Valid()
      modifies this`entries, this`bytes, this`staleBytes, this`file, this`image, this`nextSeq
      ensures Valid()
      ensures (State(), r) == Wal.Append(cfg, noDrop, old(State()), d, decidedAt, now)
    {
      AppendKeeps(cfg, noDrop, State(), d, decidedAt, now);
      r := AppendLocked(d, decidedAt, now);
    }

    method AppendLocked(d: Decision, decidedAt: Option<int>, now: int) returns (r: AppendResult)
      requires Counted(State())
      modifies this`entries, this`bytes, this`staleBytes, this`file, this`image, this`nextSeq
      ensures (State(), r) == Wal.Append(cfg, noDrop, old(State()), d, decidedAt, now)
    {
      if d.action.OtherAction? { return InvalidAction; }
      PrunedCounted(cfg, State(), now);
      PruneExpired(now);
      var rec := d.(walSeq := nextSeq, decidedAt := if decidedAt.Some? then decidedAt.value else now);
      r := AppendRecord(rec);
    }

    method AppendRecord(rec: Decision) returns (r: AppendResult)
      requires Counted(State())
      modifies this`entries, this`bytes, this`staleBytes, this`file, this`image, this`nextSeq
      ensures (State(), r) == AppendPruned(cfg, noDrop, old(State()), rec)
    {
      var size := LineBytes(cfg, rec);
      if size > MAX_LINE_BYTES { return LineTooLong; }
      var full := DropForCapacity(size);
      if full { return Full; }
      nextSeq := nextSeq + 1;
      file := Write(file, Dec(rec));
      entries := entries + [Entry(rec, size)];
      bytes := bytes + size;
      CompactIfStale();
      return Appended;
    }

    /** The n oldest decisions, not removed. */
    method Pending(n: int) returns (out: seq<Decision>)
      ensures out == Wal.Pending(State(), n)
    {
      if n <= 0 { return []; }
      var m := if n > |entries| then |entries| else n;
      out := [];
      for i := 0 to m
        invariant out == Recs(entries)[..i]
      {
        out := out + [entries[i].rec];
      }
    }

    /** Acknowledges through a sequence number; the invariant holds afterwards when that number had been issued. */
    method AckThrough(through: int)
      requires Valid()
      modifies this`entries, this`bytes, this`staleBytes, this`file, this`image
      ensures State() == Wal.AckThrough(old(State()), through)
      ensures through < nextSeq ==> Valid()
    {
      if through < nextSeq { AckKeeps(cfg.maxBytes, State(), through); }
      AckLocked(through);
    }

    method AckLocked(through: int)
      requires Counted(State())
      modifies this`entries, this`bytes, this`staleBytes, this`file, this`image
      ensures State() == Wal.AckThrough(old(State()), through)
    {
      if through <= 0 { return; }
      var i, removed := CountAcked(through);
      if i == 0 { return; }
      SumSplit(entries, i);
      SumNonNegative(entries[i..]);
      entries := entries[i..];
      bytes := AtLeastZero(bytes - removed);
      staleBytes := staleBytes + removed;
      file := Write(file, Ack(through));
      CompactIfStale();
    }

    method CountAcked(through: int) returns (i: nat, removed: int)
      ensures i == Acked(entries, through) && removed == Sum(entries[..i])
    {
      i, removed := 0, 0;
      assert entries[0..] == entries;
      while i < |entries| && entries[i].rec.walSeq <= through
        invariant 0 <= i <= |entries| && removed == Sum(entries[..i])
        invariant Acked(entries, through) == i + Acked(entries[i..], through)
      {
        SumTake(entries, i);
        assert entries[i..][1..] == entries[i+1..];
        removed := removed + entries[i].size;
        i := i + 1;
      }
    }

    /** Fills the fields from an existing file, then prunes and enforces capacity. */
    method OpenAndLoad(existing: File, ghost lastImage: nat, now: int) returns (r: Result<(), OpenError>)
      modifies this
      ensures noDrop == old(noDrop)
      ensures r.Ok? <==> Reopen(cfg, noDrop, existing, lastImage, now).Ok?
      ensures r.Ok? ==> State() == Reopen(cfg, noDrop, existing, lastImage, now).value
      ensures r.Err? ==> r.error == Reopen(cfg, noDrop, existing, lastImage, now).error
    {
      var loaded := LoadStream(existing);
      if loaded.Err? { return Err(LoadFailed(loaded.error)); }
      nextSeq, staleBytes, file, image := loaded.value.nextSeq, 0, existing, lastImage;
      LoadEntries(loaded.value.recs);
      ghost var w := State();
      if existing.tokens == [] {
        file, image := Write(file, Meta(WAL_SCHEMA_VERSION, nextSeq)), 1;
        return Ok(());
      }
      PruneExpired(now);
      if noDrop && bytes > cfg.maxBytes { return Err(OverNoDropLimit); }
      PrunedCounted(cfg, w, now);
      var _ := DropForCapacity(0);
      return Ok(());
    }

    method LoadEntries(recs: seq<Decision>)
      modifies this`entries, this`bytes
      ensures entries == Sized(cfg, recs) && bytes == Sum(entries)
    {
      entries, bytes := [], 0;
      ghost var all := Sized(cfg, recs);
      for i := 0 to |recs|
        invariant entries == all[..i] && bytes == Sum(entries)
      {
        var size := EstimateBytes(cfg, recs[i]);
        SumAppend(entries, Entry(recs[i], size));
        entries := entries + [Entry(recs[i], size)];
        bytes := bytes + size;
      }
    }
  }

  lemma PrunedCounted(cfg: Config, w: Log, now: int)
    requires Counted(w)
    ensures Counted(Prune(cfg, w, now))
  {
    var k := Expired(w.entries, now - cfg.maxAge);
    if k > 0 { RemoveCounted(w, k, w.entries[k-1].rec.walSeq); }
  }
}
