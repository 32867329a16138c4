/** Restarting the decision log on its file: records are sized anew, pruned, and made to fit. */
module WalReopen {
  import opened Text
  import opened WalLog
  import opened Wal

  datatype OpenError = LoadFailed(error: LoadError) | OverNoDropLimit

  /** Entries as the loader sizes them. */
  function Sized(cfg: Config, recs: seq<Decision>): (r: seq<Entry>)
    ensures |r| == |recs| && forall i :: 0 <= i < |r| ==> r[i] == Entry(recs[i], EstimateBytes(cfg, recs[i]))
  {
    seq(|recs|, i requires 0 <= i < |recs| => Entry(recs[i], EstimateBytes(cfg, recs[i])))
  }

  /** After loading a non-empty file: prune, then enforce capacity. */
  function Settle(cfg: Config, noDrop: bool, w: Log, now: int): Result<Log, OpenError> {
    var pruned := Prune(cfg, w, now);
    if noDrop && pruned.bytes > cfg.maxBytes then Err(OverNoDropLimit) else Ok(MakeRoom(cfg, noDrop, pruned, 0))
  }

  /** A restart on an existing file; an empty one gets its meta line. */
  function Reopen(cfg: Config, noDrop: bool, f: File, image: nat, now: int): Result<Log, OpenError> {
    match Load(f)
    case Err(e) => Err(LoadFailed(e))
    case Ok(loaded) =>
      var entries := Sized(cfg, loaded.recs);
      var w := Log(entries, loaded.nextSeq, Sum(entries), 0, f, image);
      if f.tokens == [] then Ok(w.(file := Write(f, Meta(WAL_SCHEMA_VERSION, w.nextSeq)), image := 1))
      else Settle(cfg, noDrop, w, now)
  }

  lemma {:induction false} SurplusFits(entries: seq<Entry>, room: int)
    requires forall i :: 0 <= i < |entries| ==> entries[i].size >= 0
    ensures var k := Surplus(entries, room);
            && (Sum(entries[k..]) <= room || k == |entries|)
            && (k > 0 ==> Sum(entries[k-1..]) > room)
  {
    if entries != [] && Sum(entries) > room {
      SurplusFits(entries[1..], room);
      var k := Surplus(entries[1..], room);
      assert entries[1..][k..] == entries[k+1..];
      if k > 0 { assert entries[1..][k-1..] == entries[k..]; } else { assert entries[0..] == entries; }
    } else {
      assert entries[0..] == entries;
    }
  }

  /** The log a restart starts from, before pruning and capacity: the same records with estimated sizes. */
  function Resized(cfg: Config, w: Log): Log {
    var entries := Sized(cfg, Recs(w.entries));
    Log(entries, w.nextSeq, Sum(entries), 0, w.file, w.image)
  }

  lemma ResizedInv(cfg: Config, w: Log)
    requires Mirrors(w) && Contiguous(Recs(w.entries), w.nextSeq)
    ensures Inv(Resized(cfg, w).bytes, Resized(cfg, w))
  {
    assert Recs(Resized(cfg, w).entries) == Recs(w.entries);
  }

  lemma ReopenIsSettle(cfg: Config, noDrop: bool, w: Log, now: int)
    requires Mirrors(w)
    ensures Reopen(cfg, noDrop, w.file, w.image, now) == Settle(cfg, noDrop, Resized(cfg, w), now)
  {
    MirrorsNonEmpty(w);
    LoadsBack(w);
  }

  /** A file that mirrors a log starts with its meta line. */
  lemma MirrorsNonEmpty(w: Log)
    requires Mirrors(w)
    ensures w.file.tokens != []
  {
    LegalNonEmpty(LinesOf(w.file.tokens), w.image);
  }

  lemma LegalNonEmpty(lines: seq<Line>, image: nat)
    requires Legal(lines, image)
    ensures lines != []
  {
  }

  /**
    A restart on the file of a running log under no-drop succeeds exactly when the unexpired records, sized by the
    reload estimate, fit the capacity; it then keeps exactly those, and the next sequence number.
   */
  lemma NoDropReopenIff(cfg: Config, w: Log, now: int)
    requires Mirrors(w) && Contiguous(Recs(w.entries), w.nextSeq)
    ensures Reopen(cfg, true, w.file, w.image, now).Ok? <==> Prune(cfg, Resized(cfg, w), now).bytes <= cfg.maxBytes
    ensures Reopen(cfg, true, w.file, w.image, now).Ok? ==>
              var w' := Reopen(cfg, true, w.file, w.image, now).value;
              w' == Prune(cfg, Resized(cfg, w), now) && Inv(cfg.maxBytes, w') && w'.nextSeq == w.nextSeq
  {
    ReopenIsSettle(cfg, true, w, now);
    ResizedInv(cfg, w);
    if Prune(cfg, Resized(cfg, w), now).bytes <= cfg.maxBytes {
      PruneKeeps(cfg, Resized(cfg, w).bytes, Resized(cfg, w), now);
    }
  }

  lemma EvictToFit(cfg: Config, cap: int, w: Log)
    requires Inv(cap, w) && cfg.maxBytes >= 0
    ensures Inv(cfg.maxBytes, MakeRoom(cfg, false, w, 0)) && MakeRoom(cfg, false, w, 0).nextSeq == w.nextSeq
  {
    var k := Surplus(w.entries, cfg.maxBytes);
    SurplusFits(w.entries, cfg.maxBytes);
    EvictKeeps(cap, w, k);
    assert Sum(w.entries[k..]) <= cfg.maxBytes;
  }

  lemma SettleDropInv(cfg: Config, cap: int, w: Log, now: int)
    requires Inv(cap, w) && cfg.maxBytes >= 0
    ensures var w' := MakeRoom(cfg, false, Prune(cfg, w, now), 0); Inv(cfg.maxBytes, w') && w'.nextSeq == w.nextSeq
  {
    PruneKeeps(cfg, cap, w, now);
    EvictToFit(cfg, cap, Prune(cfg, w, now));
  }

  lemma SettleDropSuffix(cfg: Config, w: Log, now: int) returns (k: nat)
    ensures k <= |w.entries| && MakeRoom(cfg, false, Prune(cfg, w, now), 0).entries == w.entries[k..]
  {
    var pruned := Prune(cfg, w, now);
    var p := if cfg.maxAge < 0 then 0 else Expired(w.entries, now - cfg.maxAge);
    assert w.entries[0..] == w.entries && pruned.entries == w.entries[p..];
    var q := Surplus(pruned.entries, cfg.maxBytes);
    assert pruned.entries[0..] == pruned.entries;
    k := p + q;
    assert w.entries[p..][q..] == w.entries[k..];
  }

  /**
    In drop mode a restart on the file of a running log always succeeds, within capacity, keeping a suffix of the
    records.
   */
  lemma DropReopen(cfg: Config, w: Log, now: int) returns (k: nat)
    requires Mirrors(w) && Contiguous(Recs(w.entries), w.nextSeq) && cfg.maxBytes >= 0
    ensures Reopen(cfg, false, w.file, w.image, now).Ok?
    ensures var w' := Reopen(cfg, false, w.file, w.image, now).value;
            && Inv(cfg.maxBytes, w') && w'.nextSeq == w.nextSeq
            && k <= |w.entries| && Recs(w'.entries) == Recs(w.entries)[k..]
  {
    hide Reopen;
    hide Prune;
    hide MakeRoom;
    hide Inv;
    hide Mirrors;
    ReopenIsSettle(cfg, false, w, now);
    ResizedInv(cfg, w);
    var start := Resized(cfg, w);
    SettleDropInv(cfg, start.bytes, start, now);
    k := SettleDropSuffix(cfg, start, now);
    assert Recs(start.entries[k..]) == Recs(w.entries)[k..];
  }

  /** A restart that succeeds keeps the invariant and the next number, and a suffix of the records. */
  lemma ReopenShape(cfg: Config, noDrop: bool, w: Log, now: int) returns (k: nat)
    requires Mirrors(w) && Contiguous(Recs(w.entries), w.nextSeq) && cfg.maxBytes >= 0
    requires Reopen(cfg, noDrop, w.file, w.image, now).Ok?
    ensures var w' := Reopen(cfg, noDrop, w.file, w.image, now).value;
            Inv(cfg.maxBytes, w') && w'.nextSeq == w.nextSeq && k <= |w.entries| &&
              Recs(w'.entries) == Recs(w.entries)[k..]
  {
    hide Reopen;
    hide Prune;
    if noDrop {
      NoDropReopenIff(cfg, w, now);
      k := PrunedSuffix(cfg, w, now);
    } else {
      k := DropReopen(cfg, w, now);
    }
  }

  lemma CapacityNonNegative(cap: int, w: Log)
    requires Inv(cap, w)
    ensures cap >= 0
  {
    SumNonNegative(w.entries);
  }

  lemma PrunedSuffix(cfg: Config, w: Log, now: int) returns (k: nat)
    ensures k <= |w.entries| && Recs(Prune(cfg, Resized(cfg, w), now).entries) == Recs(w.entries)[k..]
  {
    hide Sum;
    hide Write;
    var start := Resized(cfg, w);
    k := if cfg.maxAge < 0 then 0 else Expired(start.entries, now - cfg.maxAge);
    assert start.entries[0..] == start.entries;
    assert Prune(cfg, start, now).entries == start.entries[k..];
  }
}
