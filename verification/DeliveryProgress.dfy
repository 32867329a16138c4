/** What a round of the flush worker achieves in the delivery protocol when the network lets it through. */
module DeliveryProgress {
  import opened Text
  import opened WalLog
  import opened Wal
  import opened Ingest
  import opened Delivery
  import opened Flush

  /** The counts with one batch added. */
  lemma {:induction false} CountsGrow(m: map<AggKey, nat>, ds: seq<Decision>) returns (m': map<AggKey, nat>)
    ensures forall key :: CountAt(m', key) == CountAt(m, key) + Count(ds, key)
  {
    if ds == [] {
      m' := m;
    } else {
      var last := |ds| - 1;
      var before := CountsGrow(m, ds[..last]);
      m' := CountOne(before, ds[last]);
    }
  }

  lemma CountOne(m: map<AggKey, nat>, d: Decision) returns (m': map<AggKey, nat>)
    ensures forall key :: CountAt(m', key) == CountAt(m, key) + (if key in KeysOf(d) then 1 else 0)
  {
    var minute := Minute(d.decidedAt);
    m' := Bump(m, AggKey(minute, AllTraffic, [], d.action));
    m' := Bump(m', AggKey(minute, ByFingerprint, d.fingerprint, d.action));
    if d.principalId != [] {
      m' := Bump(m', AggKey(minute, ByPrincipal, d.principalId, d.action));
    }
  }

  /** The control plane can take the batch: well formed, and its id not in use for other content. */
  predicate Acceptable(digest: Digest, tables: Tables, b: Batch) {
    ShapeOk(digest, b) && (b.id in tables.batches ==> tables.batches[b.id] == b.hash)
  }

  lemma IngestAnswers(digest: Digest, tables: Tables, b: Batch, rate: real) returns (tables': Tables, r: IngestResult)
    requires Acceptable(digest, tables, b)
    ensures Ingests(digest, tables, b, rate, tables', r) && (r.Accepted? || r.Duplicate?)
  {
    hide ShapeOk;
    hide SamplesOf;
    hide InsertSamples;
    hide Count;
    if b.id in tables.batches {
      tables', r := tables, Duplicate;
    } else {
      var aggregates := CountsGrow(tables.aggregates, b.decisions);
      tables' := Tables(tables.batches[b.id := b.hash], aggregates,
                        InsertSamples(tables.samples, SamplesOf(b.decisions, rate)));
      r := Accepted(|b.decisions|, |SamplesOf(b.decisions, rate)|);
    }
  }

  /** The batch a flush builds from the n oldest live decisions. */
  lemma PendingBatch(cfg: Config, digest: Digest, s: System, limit: int) returns (b: Batch)
    requires SysInv(cfg, digest, s) && limit > 0 && s.node.log.entries != []
    ensures Pending(s.node.log, limit) != [] && b == BuildBatch(digest, Pending(s.node.log, limit))
    ensures |b.decisions| == (if limit < |s.node.log.entries| then limit else |s.node.log.entries|)
    ensures b.last == Low(s.node.log) + |b.decisions| - 1 && 0 < b.last < s.node.log.nextSeq
  {
    hide Inv;
    hide Pending;
    PendingFront(cfg.maxBytes, s.node.log, limit);
    LowPositive(cfg.maxBytes, s.node.log);
    b := BuildBatch(digest, Pending(s.node.log, limit));
  }

  lemma ConfirmRemoves(cfg: Config, s: System, b: Batch)
    requires Inv(cfg.maxBytes, s.node.log) && 0 < b.last < s.node.log.nextSeq && b.last >= Low(s.node.log)
    ensures Low(AckThrough(s.node.log, b.last)) == b.last + 1
    ensures AckThrough(s.node.log, b.last).nextSeq == s.node.log.nextSeq
  {
    AckExact(cfg.maxBytes, s.node.log, b.last);
  }

  lemma SendStep(cfg: Config, digest: Digest, s: System, limit: int, b: Batch) returns (t: System)
    requires s.inflight == None && Pending(s.node.log, limit) != []
    requires b == BuildBatch(digest, Pending(s.node.log, limit))
    ensures Next(cfg, digest, s, Send(limit), t) && t == s.(inflight := Some(b), sent := s.sent + {b})
  {
    hide Pending;
    t := s.(inflight := Some(b), sent := s.sent + {b});
  }

  lemma ArriveStep(cfg: Config, digest: Digest, t: System, b: Batch, rate: real) returns (u: System, arrival: Step)
    requires b in t.sent && Acceptable(digest, t.tables, b)
    ensures Next(cfg, digest, t, arrival, u) && b in u.answered
    ensures u == t.(tables := u.tables, answered := u.answered, committed := u.committed)
  {
    hide Acceptable;
    hide Ingests;
    var tables, r := IngestAnswers(digest, t.tables, b, rate);
    arrival := Arrive(b, rate, r);
    u := t.(tables := tables, answered := t.answered + {b},
            committed := if r.Accepted? then t.committed + [b] else t.committed);
  }

  lemma ConfirmStep(cfg: Config, digest: Digest, u: System, b: Batch) returns (v: System)
    requires u.inflight == Some(b) && b in u.answered
    ensures Next(cfg, digest, u, Confirm, v)
    ensures var log' := AckThrough(u.node.log, b.last);
            v == u.(node := u.node.(log := log'), inflight := None,
                    acked := u.acked + Range(Low(u.node.log), Low(log')))
  {
    hide AckThrough;
    var log' := AckThrough(u.node.log, b.last);
    v := u.(node := u.node.(log := log'), inflight := None, acked := u.acked + Range(Low(u.node.log), Low(log')));
  }

  /**
    From every reachable state with nothing in flight, sending, being answered and confirming acknowledges the oldest
    live decisions, up to the batch limit, and no others, provided the control plane can take their batch.
   */
  lemma RoundTripDelivers(cfg: Config, digest: Digest, s: System, limit: int, rate: real)
    returns (t: System, u: System, v: System, arrival: Step)
    requires SysInv(cfg, digest, s) && s.inflight == None && limit > 0 && s.node.log.entries != []
    requires Pending(s.node.log, limit) != [] ==>
             Acceptable(digest, s.tables, BuildBatch(digest, Pending(s.node.log, limit)))
    ensures Next(cfg, digest, s, Send(limit), t) && Next(cfg, digest, t, arrival, u) && Next(cfg, digest, u, Confirm, v)
    ensures var n := if limit < |s.node.log.entries| then limit else |s.node.log.entries|;
            && Low(v.node.log) == Low(s.node.log) + n && v.node.log.nextSeq == s.node.log.nextSeq
            && v.acked == s.acked + Range(Low(s.node.log), Low(s.node.log) + n)
            && v.inflight == None && v.issued == s.issued && v.dropped == s.dropped
  {
    hide Inv;
    hide Pending;
    hide Next;
    hide Acceptable;
    hide AckThrough;
    var b := PendingBatch(cfg, digest, s, limit);
    t := SendStep(cfg, digest, s, limit, b);
    u, arrival := ArriveStep(cfg, digest, t, b, rate);
    v := ConfirmStep(cfg, digest, u, b);
    ConfirmRemoves(cfg, s, b);
  }

}
