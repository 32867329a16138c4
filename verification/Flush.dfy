/** The flush worker: draining the log in batches, with appends arriving between its steps. */
module Flush {
  import opened Text
  import opened WalLog
  import opened Wal
  import opened DecisionWal
  import opened Delivery

  /** One append made by a request handler while the worker runs. */
  datatype Request = Request(d: Decision, decidedAt: Option<int>, now: int)

  /** The appends that arrive before a flush, while its request is on the wire, and after it. */
  datatype Burst = Burst(before: seq<Request>, during: seq<Request>, after: seq<Request>)

  datatype FlushResult = Drained | TransportFailed | NoProgress

  function Flatten(batches: seq<seq<Decision>>): seq<Decision> {
    if batches == [] then [] else Flatten(batches[..|batches|-1]) + batches[|batches|-1]
  }

  /** Acknowledging an issued number removes exactly the live numbers up to it. */
  lemma AckExact(cap: int, w: Log, through: int)
    requires Inv(cap, w) && 0 < through < w.nextSeq
    ensures var w' := AckThrough(w, through);
            && Low(w') == (if through >= Low(w) then through + 1 else Low(w))
            && w'.nextSeq == w.nextSeq && w'.entries == w.entries[Low(w') - Low(w)..]
  {
    hide Inv;
    hide Sum;
    hide Write;
    LowPositive(cap, w);
    var k := Acked(w.entries, through);
    AckedSeparates(w.entries, through);
    assert w.entries[0..] == w.entries;
    if k > 0 { assert w.entries[k-1].rec.walSeq == Low(w) + k - 1; }
    if k < |w.entries| { assert w.entries[k].rec.walSeq == Low(w) + k; }
  }

  lemma PendingFront(cap: int, w: Log, n: int)
    requires Inv(cap, w) && n > 0
    ensures var p := Pending(w, n);
            && (p == [] <==> w.entries == []) && |p| <= |w.entries| && p == Recs(w.entries)[..|p|]
            && |p| == (if n < |w.entries| then n else |w.entries|)
            && forall i :: 0 <= i < |p| ==> p[i].walSeq == Low(w) + i
  {
    hide Inv;
    LowPositive(cap, w);
  }

  lemma PendingThenRest(entries: seq<Entry>, k: nat)
    requires k <= |entries|
    ensures Recs(entries)[..k] + Recs(entries[k..]) == Recs(entries)
  {
    RecsTail(entries, k);
    hide Recs;
  }

  /** Appends only move the oldest live number and the next number forward. */
  method Interfere(w: DecisionWAL, requests: seq<Request>)
    requires w.Valid()
    modifies w
    ensures w.Valid()
    ensures Low(old(w.State())) <= Low(w.State()) && old(w.nextSeq) <= w.nextSeq
    ensures requests == [] ==> w.State() == old(w.State())
  {
    hide Inv;
    for i := 0 to |requests|
      invariant w.Valid()
      invariant Low(old(w.State())) <= Low(w.State()) && old(w.nextSeq) <= w.nextSeq
      invariant i == 0 ==> w.State() == old(w.State())
    {
      ghost var k := AppendShape(w.cfg, w.noDrop, w.State(), requests[i].d, requests[i].decidedAt, requests[i].now);
      var _ := w.Append(requests[i].d, requests[i].decidedAt, requests[i].now);
    }
  }

  /**
    Sends up to batchSize pending decisions, oldest first, and once the transport accepts acknowledges through the last
    of them. sent is what the transport received.
   */
  method FlushOnce(w: DecisionWAL, batchSize: int, during: seq<Request>, accepts: bool)
    returns (sent: seq<Decision>, ok: bool)
    requires w.Valid() && batchSize > 0
    modifies w
    ensures w.Valid()
    ensures Low(old(w.State())) <= Low(w.State()) && old(w.nextSeq) <= w.nextSeq
    ensures sent == Pending(old(w.State()), batchSize)
    ensures ok <==> accepts || sent == []
    ensures sent == [] ==> w.State() == old(w.State())
    ensures ok && sent != [] ==> sent[|sent|-1].walSeq < Low(w.State())
    ensures during == [] && ok ==> sent + Recs(w.entries) == Recs(old(w.entries))
    ensures during == [] && !ok ==> w.State() == old(w.State())
  {
    hide Inv;
    hide Pending;
    hide AckThrough;
    hide Recs;
    ghost var before := w.State();
    PendingFront(w.cfg.maxBytes, before, batchSize);
    LowPositive(w.cfg.maxBytes, before);
    sent := w.Pending(batchSize);
    if |sent| == 0 { return sent, true; }
    var last := sent[|sent|-1].walSeq;
    Interfere(w, during);
    if !accepts { return sent, false; }
    AckExact(w.cfg.maxBytes, w.State(), last);
    w.AckThrough(last);
    assert during == [] ==> w.entries == before.entries[|sent|..];
    PendingThenRest(before.entries, |sent|);
    ok := true;
  }

  /**
    Drains the log in batches; accepts(k) is the transport's answer to the k-th. Neither no-progress error is reachable,
    whatever appends arrive in between, and only a refused batch ends it early. With no appends in between, the accepted
    batches followed by what is left are the pending decisions in order.
   */
  method FlushAll(w: DecisionWAL, batchSize: int, schedule: seq<Burst>, accepts: nat -> bool)
    returns (batches: seq<seq<Decision>>, r: FlushResult)
    requires w.Valid() && batchSize > 0
    modifies w
    ensures w.Valid()
    ensures r == Drained || (r == TransportFailed && !accepts(|batches|))
    ensures schedule == [] ==> Flatten(batches) + Recs(w.entries) == Recs(old(w.entries))
    ensures schedule == [] ==> AllAccepted(accepts, batches)
    ensures schedule == [] && r == Drained ==> w.entries == [] && Flatten(batches) == Recs(old(w.entries))
  {
    hide Inv;
    hide Pending;
    hide Recs;
    assert Flatten([]) + Recs(w.entries) == Recs(w.entries);
    hide Flatten;
    batches := [];
    var lastAcked, i := 0, 0;
    LowPositive(w.cfg.maxBytes, w.State());
    while true
      invariant w.Valid() && i == |batches|
      invariant lastAcked < Low(w.State())
      invariant schedule == [] ==> Flatten(batches) + Recs(w.entries) == Recs(old(w.entries))
      invariant schedule == [] ==> AllAccepted(accepts, batches)
      decreases if i < |schedule| then |schedule| - i else 0, |w.entries|
    {
      PendingFront(w.cfg.maxBytes, w.State(), 1);
      var pending := w.Pending(1);
      if |pending| == 0 {
        NothingLeft(w, batches);
        return batches, Drained;
      }
      if pending[0].walSeq <= lastAcked { return batches, NoProgress; }
      var head := pending[0].walSeq;
      ghost var size := |w.entries|;
      var burst := if i < |schedule| then schedule[i] else Burst([], [], []);
      LowPositive(w.cfg.maxBytes, w.State());
      Interfere(w, burst.before);
      ghost var low := Low(w.State());
      PendingFront(w.cfg.maxBytes, w.State(), batchSize);
      LowPositive(w.cfg.maxBytes, w.State());
      var sent, ok := FlushOnce(w, batchSize, burst.during, accepts(i));
      if !ok { return batches, TransportFailed; }
      assert head < Low(w.State());
      BatchAdded(accepts, batches, sent, Recs(w.entries));
      batches := batches + [sent];
      Interfere(w, burst.after);
      PendingFront(w.cfg.maxBytes, w.State(), 1);
      var after := w.Pending(1);
      if |after| == 0 {
        NothingLeft(w, batches);
        return batches, Drained;
      }
      if after[0].walSeq <= head { return batches, NoProgress; }
      lastAcked := head;
      i := i + 1;
    }
  }

  /** Every batch was accepted and held something. */
  predicate AllAccepted(accepts: nat -> bool, batches: seq<seq<Decision>>) {
    forall k :: 0 <= k < |batches| ==> accepts(k) && batches[k] != []
  }

  lemma BatchAdded(accepts: nat -> bool, batches: seq<seq<Decision>>, sent: seq<Decision>, rest: seq<Decision>)
    ensures Flatten(batches + [sent]) + rest == Flatten(batches) + (sent + rest)
    ensures AllAccepted(accepts, batches) && accepts(|batches|) && sent != [] ==> AllAccepted(accepts, batches + [sent])
  {
    FlattenSnoc(batches, sent);
    hide Flatten;
    Regroup(Flatten(batches), sent, rest);
  }

  lemma FlattenSnoc(batches: seq<seq<Decision>>, sent: seq<Decision>)
    ensures Flatten(batches + [sent]) == Flatten(batches) + sent
  {
    assert (batches + [sent])[..|batches|] == batches;
  }

  lemma Regroup(a: seq<Decision>, b: seq<Decision>, c: seq<Decision>)
    ensures (a + b) + c == a + (b + c)
  {
  }

  lemma NothingLeft(w: DecisionWAL, batches: seq<seq<Decision>>)
    requires w.entries == []
    ensures Flatten(batches) + Recs(w.entries) == Flatten(batches)
  {
    hide Flatten;
  }
}
