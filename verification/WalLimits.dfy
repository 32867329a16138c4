/** Where the decision log's promises stop: exactly when restart, acks and pruning do what is expected. */
module WalLimits {
  import opened Text
  import opened WalLog
  import opened Wal
  import opened WalReopen
  import opened WalRuns

  // ----- Capacity -----

  /** While no-drop is effective, an append removes nothing but expired decisions. */
  lemma NoDropLosesOnlyExpired(cfg: Config, w: Log, d: Decision, decidedAt: Option<int>, now: int) returns (k: nat)
    ensures k <= |w.entries| && forall i :: 0 <= i < k ==> w.entries[i].rec.decidedAt < now - cfg.maxAge
    ensures var (w', r) := Append(cfg, true, w, d, decidedAt, now);
            && (r != Appended ==> w'.entries == w.entries[k..] && w'.nextSeq == w.nextSeq)
            && (r == Appended ==>
                  |w'.entries| == |w.entries| - k + 1 && w'.entries[..|w.entries| - k] == w.entries[k..])
  {
    hide Sum;
    hide Expired;
    hide Write;
    hide Recs;
    k := if d.action.OtherAction? || cfg.maxAge < 0 then 0 else Expired(w.entries, now - cfg.maxAge);
    ExpiredPrefix(w.entries, now - cfg.maxAge);
    assert w.entries[0..] == w.entries;
    assert !d.action.OtherAction? ==> Prune(cfg, w, now).entries == w.entries[k..];
  }

  lemma {:induction false} ExpiredPrefix(entries: seq<Entry>, cutoff: int)
    ensures var k := Expired(entries, cutoff);
            && (forall i :: 0 <= i < k ==> entries[i].rec.decidedAt < cutoff)
            && (k < |entries| ==> entries[k].rec.decidedAt >= cutoff)
  {
    if entries != [] && entries[0].rec.decidedAt < cutoff {
      ExpiredPrefix(entries[1..], cutoff);
      forall i | 0 <= i < Expired(entries, cutoff) ensures entries[i].rec.decidedAt < cutoff {
        if i > 0 { assert entries[i] == entries[1..][i-1]; }
      }
    }
  }

  /**
    What an append answers and records, in either mode and on any log. It refuses exactly the decisions whose action is
    none of allow, deny and passthrough, and then changes nothing. A decision it takes is recorded last and unaltered
    but for the next number and the time given, or else now; a decision it does not take uses no number.
   */
  lemma AppendRecords(cfg: Config, noDrop: bool, w: Log, d: Decision, decidedAt: Option<int>, now: int)
    ensures var (w', r) := Append(cfg, noDrop, w, d, decidedAt, now);
            && (r == InvalidAction <==> d.action != Allow && d.action != Deny && d.action != Passthrough)
            && (r == InvalidAction ==> w' == w)
            && (r != Appended ==> w'.nextSeq == w.nextSeq)
            && (r == Appended ==>
                && w'.nextSeq == w.nextSeq + 1 && w'.entries != []
                && var rec := w'.entries[|w'.entries|-1].rec;
                   && rec.walSeq == w.nextSeq
                   && rec.fingerprint == d.fingerprint && rec.principalId == d.principalId
                   && rec.score == d.score && rec.blacklisted == d.blacklisted
                   && rec.scoreReason == d.scoreReason && rec.action == d.action
                   && (decidedAt.None? ==> rec.decidedAt == now)
                   && (decidedAt.Some? ==> rec.decidedAt == decidedAt.value))
  {
    hide Sum;
    hide Surplus;
    hide Expired;
    hide Write;
    hide Recs;
  }

  /** The k oldest entries, and no longer prefix, are older than the retention time; none when there is no such time. */
  predicate ExpiredUpTo(cfg: Config, w: Log, now: int, k: nat) {
    if cfg.maxAge < 0 then k == 0
    else && k <= |w.entries| && (forall i :: 0 <= i < k ==> w.entries[i].rec.decidedAt < now - cfg.maxAge)
         && (k < |w.entries| ==> w.entries[k].rec.decidedAt >= now - cfg.maxAge)
  }

  /**
    When a valid append runs out of room, and what it costs. After the k expired entries are gone, a line of more than
    1 MiB is refused; so is one that does not fit beside what is left, in no-drop mode, or on its own, in drop mode.
    Otherwise the record follows what is left but for its j oldest entries: none in no-drop mode, and in drop mode no
    more than it takes.
   */
  lemma AppendOutcome(cfg: Config, noDrop: bool, w: Log, d: Decision, decidedAt: Option<int>, now: int, rec: Decision)
    returns (k: nat, j: nat)
    requires Inv(cfg.maxBytes, w) && !d.action.OtherAction?
    requires rec == Decision(w.nextSeq, d.fingerprint, d.principalId, d.score, d.blacklisted, d.scoreReason, d.action,
                             if decidedAt.Some? then decidedAt.value else now)
    ensures k + j <= |w.entries| && ExpiredUpTo(cfg, w, now, k) && (noDrop ==> j == 0)
    ensures var (w', r) := Append(cfg, noDrop, w, d, decidedAt, now);
            var size := cfg.shared(rec) + 10;
            && (r == LineTooLong <==> size > 0x10_0000)
            && (r == Full <==>
                && size <= 0x10_0000
                && (if noDrop then Sum(w.entries[k..]) + size > cfg.maxBytes else size > cfg.maxBytes))
            && (r == LineTooLong ==> w'.entries == w.entries[k..])
            && (r == Full && noDrop ==> w'.entries == w.entries[k..])
            && (r == Appended ==>
                && w'.entries == w.entries[k+j..] + [Entry(rec, size)]
                && Sum(w.entries[k+j..]) + size <= cfg.maxBytes
                && (j > 0 ==> Sum(w.entries[k+j-1..]) + size > cfg.maxBytes))
  {
    hide Inv;
    hide Sum;
    hide Surplus;
    hide Expired;
    hide Write;
    hide Mirrors;
    ExpiredPrefix(w.entries, now - cfg.maxAge);
    k := if cfg.maxAge < 0 then 0 else Expired(w.entries, now - cfg.maxAge);
    assert w.entries[0..] == w.entries;
    var pruned := Prune(cfg, w, now);
    assert pruned.entries == w.entries[k..];
    PruneKeeps(cfg, cfg.maxBytes, w, now);
    j := OutcomePruned(cfg, noDrop, pruned, rec);
    assert pruned.entries[j..] == w.entries[k+j..];
    if j > 0 { assert pruned.entries[j-1..] == w.entries[k+j-1..]; }
  }

  lemma InvCounted(cap: int, w: Log)
    requires Inv(cap, w)
    ensures Counted(w) && w.bytes == Sum(w.entries)
  {}

  lemma OutcomePruned(cfg: Config, noDrop: bool, w: Log, rec: Decision) returns (j: nat)
    requires Inv(cfg.maxBytes, w)
    ensures j <= |w.entries| && (noDrop ==> j == 0)
    ensures var (w', r) := AppendPruned(cfg, noDrop, w, rec);
            var size := cfg.shared(rec) + 10;
            && (r == LineTooLong <==> size > 0x10_0000) && r != InvalidAction
            && (r == Full <==>
                && size <= 0x10_0000
                && (if noDrop then Sum(w.entries) + size > cfg.maxBytes else size > cfg.maxBytes))
            && (r == LineTooLong || (r == Full && noDrop) ==> w'.entries == w.entries)
            && (r == Appended ==>
                && w'.entries == w.entries[j..] + [Entry(rec, size)]
                && Sum(w.entries[j..]) + size <= cfg.maxBytes
                && (j > 0 ==> Sum(w.entries[j-1..]) + size > cfg.maxBytes))
  {
    hide Inv;
    hide Sum;
    hide Surplus;
    hide Write;
    var size := LineBytes(cfg, rec);
    CapacityNonNegative(cfg.maxBytes, w);
    InvCounted(cfg.maxBytes, w);
    hide Counted;
    j := RoomLeft(cfg, noDrop, w, size);
    assert w.entries[0..] == w.entries;
    hide MakeRoom;
  }

  lemma SurplusTight(w: Log, room: int)
    requires Counted(w)
    ensures Surplus(w.entries, room) > 0 ==> Sum(w.entries[Surplus(w.entries, room)-1..]) > room
  {
    SurplusFits(w.entries, room);
  }

  lemma EvictedRest(w: Log, k: nat)
    requires Counted(w) && k <= |w.entries|
    ensures Evict(w, k).entries == w.entries[k..] && Evict(w, k).bytes == Sum(w.entries[k..])
  {
    hide Write;
    SumSplit(w.entries, k);
    assert w.entries[0..] == w.entries;
    hide Sum;
  }

  lemma RoomLeft(cfg: Config, noDrop: bool, w: Log, size: nat) returns (j: nat)
    requires Counted(w) && w.bytes == Sum(w.entries) && cfg.maxBytes >= 0
    ensures j <= |w.entries| && (noDrop ==> j == 0)
    ensures var roomy := MakeRoom(cfg, noDrop, w, size);
            && roomy.entries == w.entries[j..] && roomy.bytes == Sum(w.entries[j..])
            && (!noDrop ==> (roomy.bytes + size > cfg.maxBytes <==> size > cfg.maxBytes))
            && (j > 0 ==> Sum(w.entries[j-1..]) + size > cfg.maxBytes)
  {
    hide Counted;
    hide Sum;
    hide Surplus;
    hide Evict;
    if noDrop {
      j := 0;
      assert w.entries[0..] == w.entries;
    } else {
      j := Surplus(w.entries, cfg.maxBytes - size);
      RoomMade(cfg, w, size);
      EvictedRest(w, j);
      SurplusTight(w, cfg.maxBytes - size);
    }
  }

  /** No old decision stands behind a young one. */
  predicate OldestFirst(entries: seq<Entry>, cutoff: int) {
    forall i, j :: 0 <= i < j < |entries| && entries[j].rec.decidedAt < cutoff ==> entries[i].rec.decidedAt < cutoff
  }

  /**
    Pruning leaves no decision past the retention window exactly when the expired ones come first; the scan stops at
    the first young one.
   */
  lemma PruneCompleteIff(cfg: Config, w: Log, now: int)
    requires cfg.maxAge >= 0
    ensures (forall i :: 0 <= i < |Prune(cfg, w, now).entries| ==>
             Prune(cfg, w, now).entries[i].rec.decidedAt >= now - cfg.maxAge) <==>
            OldestFirst(w.entries, now - cfg.maxAge)
  {
    hide Sum;
    var cutoff := now - cfg.maxAge;
    assert w.entries[0..] == w.entries;
    assert Prune(cfg, w, now).entries == w.entries[Expired(w.entries, cutoff)..];
    ScanCompleteIff(w.entries, cutoff);
  }

  lemma ScanCompleteIff(entries: seq<Entry>, cutoff: int)
    ensures (forall i :: Expired(entries, cutoff) <= i < |entries| ==> entries[i].rec.decidedAt >= cutoff) <==>
            OldestFirst(entries, cutoff)
    ensures var rest := entries[Expired(entries, cutoff)..];
            (forall i :: 0 <= i < |rest| ==> rest[i].rec.decidedAt >= cutoff) <==>
            (forall i :: Expired(entries, cutoff) <= i < |entries| ==> entries[i].rec.decidedAt >= cutoff)
  {
    var k := Expired(entries, cutoff);
    ExpiredPrefix(entries, cutoff);
    hide Expired;
    var rest := entries[k..];
    assert forall i :: k <= i < |entries| ==> entries[i] == rest[i-k];
    assert forall i :: 0 <= i < |rest| ==> rest[i] == entries[k+i];
  }

  /**
    In drop mode an append fails for space exactly when the record alone exceeds the capacity, and then every entry is
    gone.
   */
  lemma OversizedEmptiesLog(cfg: Config, w: Log, rec: Decision)
    requires Counted(w) && cfg.maxBytes >= 0
    ensures var (w', r) := AppendPruned(cfg, false, w, rec);
            && (r == Full <==> LineBytes(cfg, rec) <= MAX_LINE_BYTES && LineBytes(cfg, rec) > cfg.maxBytes)
            && (r == Full ==> w'.entries == [])
  {
    hide Add;
    hide MaybeCompact;
    hide MakeRoom;
    RoomMade(cfg, w, LineBytes(cfg, rec));
  }

  /** Making room frees enough exactly when the need fits the capacity at all, and empties the log otherwise. */
  lemma RoomMade(cfg: Config, w: Log, size: nat)
    requires Counted(w) && cfg.maxBytes >= 0
    ensures var roomy := MakeRoom(cfg, false, w, size);
            (roomy.bytes + size > cfg.maxBytes <==> size > cfg.maxBytes) &&
              (size > cfg.maxBytes ==> roomy.entries == [])
  {
    hide Write;
    var k := Surplus(w.entries, cfg.maxBytes - size);
    SurplusFits(w.entries, cfg.maxBytes - size);
    SumSplit(w.entries, k);
    SumNonNegative(w.entries[k..]);
    assert Sum([]) == 0;
    assert w.entries[0..] == w.entries;
    hide Sum;
    hide Surplus;
  }

  /**
    The file is rewritten exactly when the bytes of removed entries reach 1 MiB and are not less than half of the live
    ones, rounded down; the log then has one line per live entry after its header.
   */
  lemma CompactsIff(w: Log)
    ensures if w.staleBytes >= 0x10_0000 && (w.bytes <= 0 || 2 * w.staleBytes + 1 >= w.bytes)
            then && MaybeCompact(w).staleBytes == 0 && |MaybeCompact(w).file.tokens| == 1 + |w.entries|
                 && MaybeCompact(w).entries == w.entries && MaybeCompact(w).bytes == w.bytes
                 && MaybeCompact(w).nextSeq == w.nextSeq
            else MaybeCompact(w) == w
  {
  }

  // ----- Acknowledging numbers not yet issued -----

  /**
    After any acknowledgement the next record written survives a reload exactly when the acknowledged number had been
    issued, or nothing was live to remove, or the live and discarded bytes together reach the compaction threshold: the
    file is then rewritten and the ack line is gone. AckThrough itself does not check this.
   */
  lemma AckSafeIff(cap: int, w: Log, through: int, e: Entry)
    requires Inv(cap, w) && e.rec.walSeq == w.nextSeq
    ensures var w' := Add(AckThrough(w, through), e);
            Load(w'.file) == Ok(Loaded(Recs(w'.entries), w'.nextSeq)) <==>
            through < w.nextSeq || w.entries == [] || w.bytes + w.staleBytes >= MIB
  {
    hide Counted;
    var acked := AckThrough(w, through);
    if through < w.nextSeq {
      AckKeeps(cap, w, through);
      NextLoadsBack(acked, e);
    } else if w.entries == [] {
      NextLoadsBack(w, e);
    } else {
      var removed := Remove(w, |w.entries|, through);
      UnissuedAckRemovesAll(cap, w, through);
      if w.bytes + w.staleBytes >= MIB {
        CompactMirrors(removed);
        NextLoadsBack(acked, e);
      } else {
        UnissuedAckLosesNext(acked, w.file, through, e);
      }
    }
  }

  lemma NextLoadsBack(w: Log, e: Entry)
    requires Mirrors(w) && Contiguous(Recs(w.entries), w.nextSeq) && e.rec.walSeq == w.nextSeq
    ensures Load(Add(w, e).file) == Ok(Loaded(Recs(Add(w, e).entries), Add(w, e).nextSeq))
  {
    AddMirrors(w, e);
    LoadsBack(Add(w, e));
  }

  /** Every live number is below an unissued one, so its acknowledgement discards them all. */
  lemma UnissuedAckRemovesAll(cap: int, w: Log, through: int)
    requires Inv(cap, w) && w.entries != [] && w.nextSeq <= through
    ensures var removed := Remove(w, |w.entries|, through);
            && removed.entries == [] && removed.bytes == 0 && removed.staleBytes == w.staleBytes + w.bytes
            && Contiguous(Recs(removed.entries), removed.nextSeq)
            && AckThrough(w, through) == MaybeCompact(removed)
  {
    var k := Acked(w.entries, through);
    AckedSeparates(w.entries, through);
    assert forall i :: 0 <= i < |w.entries| ==> w.entries[i].rec == Recs(w.entries)[i];
    assert w.entries[..|w.entries|] == w.entries;
  }

  lemma UnissuedAckLosesNext(acked: Log, f: File, through: int, e: Entry)
    requires Healthy(f) && acked.file == Write(f, Ack(through)) && e.rec.walSeq <= through
    ensures Load(Add(acked, e).file) != Ok(Loaded(Recs(Add(acked, e).entries), Add(acked, e).nextSeq))
  {
    var w' := Add(acked, e);
    WriteHealthy(f, Ack(through));
    WriteHealthy(acked.file, Dec(e.rec));
    var lines := LinesOf(w'.file.tokens);
    LastAckMark(LinesOf(f.tokens), through, e.rec);
    DecsAreAbove(lines, AckMark(lines));
    assert Recs(w'.entries)[|w'.entries|-1] == e.rec;
    assert TwoPass(lines).recs != Recs(w'.entries);
  }

  lemma LastAckMark(lines: seq<Line>, through: int, rec: Decision)
    ensures AckMark(lines + [Ack(through)] + [Dec(rec)]) >= through
  {
    var acked := lines + [Ack(through)];
    assert acked[..|lines|] == lines;
    assert (acked + [Dec(rec)])[..|acked|] == acked;
  }

  // ----- Restart -----

  /**
    The reload estimate of a record is below the size of its log line exactly for a flagged, scored, fingerprinted
    one. The line has the type tag, the estimate the fields the line omits; single quotes stand for double ones.
   */
  lemma EstimateDrift(cfg: Config, d: Decision)
    ensures EstimateBytes(cfg, d) < LineBytes(cfg, d) <==> d.blacklisted && d.score != 0 && d.fingerprint != []
    ensures LineBytes(cfg, d) == cfg.shared(d) + |"'t':'dec',"|
    ensures EstimateBytes(cfg, d) == cfg.shared(d) + (if d.score == 0 then |"'score':0,"| else 0)
              + (if d.blacklisted then 0 else |"'blacklisted':false,"|)
              + (if d.fingerprint == [] then |"'fingerprint':'',"| else 0)
  {
  }

  /** So a no-drop log can accept a decision within its capacity and then refuse to restart on its own intact file. */
  lemma NoDropRestartRefused(d: Decision, shared: Decision -> nat)
    requires d.action.Allow? && !d.blacklisted && d.score != 0 && d.fingerprint != []
    requires shared(d.(walSeq := 1)) + 10 <= MAX_LINE_BYTES
    ensures var cfg := Config(shared(d.(walSeq := 1)) + 10, -1, shared);
            var (w, r) := Append(cfg, true, FreshLog(), d, Some(d.decidedAt), 0);
            && r == Appended && Inv(cfg.maxBytes, w) && w.bytes == cfg.maxBytes
            && Reopen(cfg, true, w.file, w.image, 0) == Err(OverNoDropLimit)
  {
    var cfg := Config(shared(d.(walSeq := 1)) + 10, -1, shared);
    var rec := d.(walSeq := 1);
    FreshInv(cfg);
    AppendKeeps(cfg, true, FreshLog(), d, Some(d.decidedAt), 0);
    FirstAppend(cfg, d);
    var w := Append(cfg, true, FreshLog(), d, Some(d.decidedAt), 0).0;
    hide Append;
    hide Reopen;
    hide Recs;
    OneRecordRefused(cfg, w, rec);
  }

  lemma FirstAppend(cfg: Config, d: Decision)
    requires d.action.Allow? && cfg.maxAge == -1 && cfg.maxBytes == cfg.shared(d.(walSeq := 1)) + 10 <= MAX_LINE_BYTES
    ensures var (w, r) := Append(cfg, true, FreshLog(), d, Some(d.decidedAt), 0);
            && r == Appended && w.bytes == cfg.maxBytes && w.file.tokens != []
            && w.entries == [Entry(d.(walSeq := 1), cfg.maxBytes)]
  {
    hide Sum;
    assert [] + [Entry(d.(walSeq := 1), cfg.maxBytes)] == [Entry(d.(walSeq := 1), cfg.maxBytes)];
  }

  lemma OneRecordRefused(cfg: Config, w: Log, rec: Decision)
    requires Mirrors(w) && w.entries == [Entry(rec, cfg.maxBytes)] && w.file.tokens != []
    requires cfg.maxAge == -1 && EstimateBytes(cfg, rec) > cfg.maxBytes
    ensures Reopen(cfg, true, w.file, w.image, 0) == Err(OverNoDropLimit)
  {
    LoadsBack(w);
    hide Mirrors;
    hide Load;
    assert Recs(w.entries) == [rec];
    var estimate := Sized(cfg, [rec]);
    assert estimate[1..] == [] && Sum(estimate) == EstimateBytes(cfg, rec);
    hide EstimateBytes;
  }
}
