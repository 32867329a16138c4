/** The control plane's decision ingest: batch checks, per-minute aggregates, samples, and idempotence by batch. */
module Ingest {
  import opened Text
  import opened WalLog

  const MAX_BATCH := 500
  const MINUTE_MS := 60000

  /** The payload hash and the shorter batch id derived from it. */
  datatype Digest = Digest(hash: seq<Decision> -> nat, id: nat -> nat)

  datatype Batch = Batch(id: nat, hash: nat, first: int, last: int, decisions: seq<Decision>)

  datatype Dimension = AllTraffic | ByFingerprint | ByPrincipal
  datatype AggKey = AggKey(minute: int, dimension: Dimension, value: Str, action: Action)

  datatype SampleRow = SampleRow(walSeq: int, fingerprint: Str, principalId: Option<Str>, score: int, blacklisted: bool,
                                 scoreReason: Option<Str>, action: Action, decidedAt: int)

  /** The three tables of one edge node. */
  datatype Tables = Tables(batches: map<nat, nat>, aggregates: map<AggKey, nat>, samples: map<int, SampleRow>)

  datatype IngestResult = Rejected | Conflict | Duplicate | Accepted(accepted: nat, sampled: nat)

  /** The edge's batch for a non-empty prefix of its log. */
  function BuildBatch(digest: Digest, decisions: seq<Decision>): Batch
    requires decisions != []
  {
    Batch(digest.id(digest.hash(decisions)), digest.hash(decisions), decisions[0].walSeq,
          decisions[|decisions|-1].walSeq, decisions)
  }

  predicate DecisionOk(d: Decision) {
    !d.action.OtherAction? && d.fingerprint != [] && d.walSeq >= 1
  }

  predicate ShapeOk(digest: Digest, b: Batch) {
    && b.first <= b.last && 0 < |b.decisions| <= MAX_BATCH
    && b.decisions[0].walSeq == b.first && b.decisions[|b.decisions|-1].walSeq == b.last
    && (forall i :: 0 <= i < |b.decisions| ==> DecisionOk(b.decisions[i]))
    && b.hash == digest.hash(b.decisions) && b.id == digest.id(b.hash)
  }

  /** Denies always; others when the decision's time falls in the sampled share of each 10 s. */
  predicate ShouldSample(d: Decision, rate: real) {
    d.action.Deny? || (rate > 0.0 && (rate >= 1.0 || (d.decidedAt % 10000) as real / 10000.0 < rate))
  }

  /** Minute bucket, floored. */
  function Minute(decidedAt: int): int {
    decidedAt / MINUTE_MS
  }

  /** The aggregate cells a decision counts in. */
  function KeysOf(d: Decision): seq<AggKey> {
    [AggKey(Minute(d.decidedAt), AllTraffic, [], d.action),
     AggKey(Minute(d.decidedAt), ByFingerprint, d.fingerprint, d.action)] +
    (if d.principalId != [] then [AggKey(Minute(d.decidedAt), ByPrincipal, d.principalId, d.action)] else [])
  }

  /** How many of the decisions count in a cell. */
  function Count(ds: seq<Decision>, key: AggKey): nat {
    if ds == [] then 0 else Count(ds[..|ds|-1], key) + (if key in KeysOf(ds[|ds|-1]) then 1 else 0)
  }

  function CountAt(m: map<AggKey, nat>, key: AggKey): nat {
    if key in m then m[key] else 0
  }

  function Bump(m: map<AggKey, nat>, key: AggKey): map<AggKey, nat> {
    m[key := CountAt(m, key) + 1]
  }

  /** Adding an insert's counts to the table, conflict by conflict. */
  function Merge(table: map<AggKey, nat>, counts: map<AggKey, nat>): map<AggKey, nat> {
    map key | key in table.Keys + counts.Keys :: CountAt(table, key) + CountAt(counts, key)
  }

  function RowOf(d: Decision): SampleRow {
    SampleRow(d.walSeq, d.fingerprint, if d.principalId == [] then None else Some(d.principalId),
              d.score, d.blacklisted,
              if d.scoreReason == [] then None else Some(d.scoreReason), d.action, d.decidedAt)
  }

  function SamplesOf(ds: seq<Decision>, rate: real): seq<Decision> {
    if ds == [] then []
    else SamplesOf(ds[..|ds|-1], rate) + (if ShouldSample(ds[|ds|-1], rate) then [ds[|ds|-1]] else [])
  }

  /** Inserting rows keyed by sequence number; a number already present is left alone. */
  function InsertSamples(table: map<int, SampleRow>, ds: seq<Decision>): map<int, SampleRow> {
    if ds == [] then table
    else
      var before, d := InsertSamples(table, ds[..|ds|-1]), ds[|ds|-1];
      if d.walSeq in before then before else before[d.walSeq := RowOf(d)]
  }

  /** counts holds exactly how many of the decisions fall in each cell. */
  ghost predicate Tallies(counts: map<AggKey, nat>, ds: seq<Decision>) {
    forall key :: CountAt(counts, key) == Count(ds, key)
  }

  lemma TallyNext(counts: map<AggKey, nat>, ds: seq<Decision>, d: Decision, counts': map<AggKey, nat>)
    requires Tallies(counts, ds)
    requires forall key :: CountAt(counts', key) == CountAt(counts, key) + (if key in KeysOf(d) then 1 else 0)
    ensures Tallies(counts', ds + [d])
  {
    assert (ds + [d])[..|ds|] == ds;
  }

  /** The ingest loop: tallies every decision in its cells and picks the samples. */
  method Tally(ds: seq<Decision>, rate: real) returns (counts: map<AggKey, nat>, samples: seq<Decision>)
    ensures Tallies(counts, ds)
    ensures samples == SamplesOf(ds, rate)
  {
    counts, samples := map[], [];
    for i := 0 to |ds|
      invariant Tallies(counts, ds[..i])
      invariant samples == SamplesOf(ds[..i], rate)
    {
      var d := ds[i];
      assert ds[..i+1] == ds[..i] + [d] && ds[..i+1][..i] == ds[..i];
      ghost var before := counts;
      var bucket := Minute(d.decidedAt);
      counts := Bump(counts, AggKey(bucket, AllTraffic, [], d.action));
      counts := Bump(counts, AggKey(bucket, ByFingerprint, d.fingerprint, d.action));
      if d.principalId != [] {
        counts := Bump(counts, AggKey(bucket, ByPrincipal, d.principalId, d.action));
      }
      TallyNext(before, ds[..i], d, counts);
      if ShouldSample(d, rate) {
        samples := samples + [d];
      }
    }
    assert ds[..|ds|] == ds;
  }

  /** What a batch does to the tables. */
  ghost predicate Stored(before: Tables, after: Tables, b: Batch, rate: real) {
    && after.batches == before.batches[b.id := b.hash]
    && (forall key :: CountAt(after.aggregates, key) == CountAt(before.aggregates, key) + Count(b.decisions, key))
    && after.samples == InsertSamples(before.samples, SamplesOf(b.decisions, rate))
  }

  /** Malformed batches are refused, a known id answers by its hash, and a new batch is stored in one transaction. */
  ghost predicate Ingests(digest: Digest, before: Tables, b: Batch, rate: real, after: Tables, r: IngestResult) {
    if !ShapeOk(digest, b) then r == Rejected && after == before
    else if b.id in before.batches then
      after == before && r == (if before.batches[b.id] == b.hash then Duplicate else Conflict)
    else r == Accepted(|b.decisions|, |SamplesOf(b.decisions, rate)|) && Stored(before, after, b, rate)
  }

  class DecisionIngest {
    const digest: Digest
    var tables: Tables

    constructor (digest: Digest)
      ensures this.digest == digest && tables == Tables(map[], map[], map[])
    {
      this.digest, tables := digest, Tables(map[], map[], map[]);
    }

    method CheckShape(b: Batch) returns (ok: bool)
      ensures ok == ShapeOk(digest, b)
      ensures ok <==>
              && b.first <= b.last && 1 <= |b.decisions| <= 500
              && b.first == b.decisions[0].walSeq && b.last == b.decisions[|b.decisions|-1].walSeq
              && (forall i :: 0 <= i < |b.decisions| ==>
                  && b.decisions[i].action in {Allow, Deny, Passthrough}
                  && b.decisions[i].fingerprint != [] && b.decisions[i].walSeq > 0)
              && digest.hash(b.decisions) == b.hash && digest.id(digest.hash(b.decisions)) == b.id
    {
      if b.first > b.last { return false; }
      if |b.decisions| == 0 || |b.decisions| > MAX_BATCH { return false; }
      if b.decisions[0].walSeq != b.first || b.decisions[|b.decisions|-1].walSeq != b.last { return false; }
      for i := 0 to |b.decisions|
        invariant forall k :: 0 <= k < i ==> DecisionOk(b.decisions[k])
      {
        if !DecisionOk(b.decisions[i]) { return false; }
      }
      return b.hash == digest.hash(b.decisions) && b.id == digest.id(b.hash);
    }

    method IngestBatch(b: Batch, rate: real) returns (r: IngestResult)
      modifies this
      ensures Ingests(digest, old(tables), b, rate, tables, r)
    {
      var ok := CheckShape(b);
      if !ok { return Rejected; }
      if b.id in tables.batches {
        return if tables.batches[b.id] == b.hash then Duplicate else Conflict;
      }
      var counts, samples := Tally(b.decisions, rate);
      var aggregates := Merge(tables.aggregates, counts);
      var rows := StoreSamples(samples);
      tables := Tables(tables.batches[b.id := b.hash], aggregates, rows);
      return Accepted(|b.decisions|, |samples|);
    }

    method StoreSamples(samples: seq<Decision>) returns (rows: map<int, SampleRow>)
      ensures rows == InsertSamples(tables.samples, samples)
    {
      rows := tables.samples;
      for i := 0 to |samples|
        invariant rows == InsertSamples(tables.samples, samples[..i])
      {
        assert samples[..i+1][..i] == samples[..i];
        if samples[i].walSeq !in rows {
          rows := rows[samples[i].walSeq := RowOf(samples[i])];
        }
      }
      assert samples[..|samples|] == samples;
    }
  }

  // ----- What a batch adds to the counts -----

  /**
    The decision belongs in the cell: its action is the cell's, its time lies in the cell's minute, and it is any
    decision, one with the cell's fingerprint, or one of the cell's principal, as the cell says.
   */
  predicate InCell(d: Decision, key: AggKey) {
    && d.action == key.action && 60000 * key.minute <= d.decidedAt < 60000 * (key.minute + 1)
    && match key.dimension
       case AllTraffic => key.value == []
       case ByFingerprint => d.fingerprint == key.value
       case ByPrincipal => d.principalId == key.value != []
  }

  lemma InCellIff(d: Decision, key: AggKey)
    ensures key in KeysOf(d) <==> InCell(d, key)
  {
    assert d.decidedAt == 60000 * Minute(d.decidedAt) + d.decidedAt % 60000;
    hide Minute;
    var m := Minute(d.decidedAt);
    assert 60000 * key.minute <= d.decidedAt < 60000 * (key.minute + 1) <==> m == key.minute;
    assert |KeysOf(d)| >= 2 && KeysOf(d)[0] == AggKey(m, AllTraffic, [], d.action)
           && KeysOf(d)[1] == AggKey(m, ByFingerprint, d.fingerprint, d.action);
    if d.principalId != [] { assert KeysOf(d)[2] == AggKey(m, ByPrincipal, d.principalId, d.action); }
  }

  /** The positions of the decisions that belong in the cell. */
  ghost function PositionsIn(ds: seq<Decision>, key: AggKey): set<int> {
    set i | 0 <= i < |ds| && InCell(ds[i], key)
  }

  lemma PositionsNext(ds: seq<Decision>, d: Decision, key: AggKey)
    ensures PositionsIn(ds + [d], key) == PositionsIn(ds, key) + (if InCell(d, key) then {|ds|} else {})
    ensures |ds| !in PositionsIn(ds, key)
  {
    hide InCell;
    var longer := ds + [d];
    forall i ensures i in PositionsIn(longer, key) <==>
                     i in PositionsIn(ds, key) || (i == |ds| && InCell(d, key))
    {
      if 0 <= i < |ds| { assert longer[i] == ds[i]; }
    }
  }

  lemma {:induction false} CountIsPositions(ds: seq<Decision>, key: AggKey)
    ensures Count(ds, key) == |PositionsIn(ds, key)|
  {
    hide InCell;
    hide KeysOf;
    if ds == [] {
      assert PositionsIn(ds, key) == {};
    } else {
      var last := |ds| - 1;
      CountIsPositions(ds[..last], key);
      InCellIff(ds[last], key);
      assert ds == ds[..last] + [ds[last]];
      PositionsNext(ds[..last], ds[last], key);
      hide PositionsIn;
    }
  }

  /** An accepted batch raises every cell by the number of its decisions that belong there, so all other cells stay. */
  lemma CellsAfterBatch(digest: Digest, before: Tables, b: Batch, rate: real, after: Tables, r: IngestResult,
                        key: AggKey)
    requires Ingests(digest, before, b, rate, after, r) && r.Accepted?
    ensures CountAt(after.aggregates, key) ==
            CountAt(before.aggregates, key) + |set i | 0 <= i < |b.decisions| && InCell(b.decisions[i], key)|
  {
    hide InCell;
    CountIsPositions(b.decisions, key);
  }

  /** Sending a stored batch again answers duplicate and changes nothing; its id with another hash is a conflict. */
  lemma StoredOnce(digest: Digest, before: Tables, b: Batch, rate: real, after: Tables, r: IngestResult,
                   again: Batch, rate': real, after': Tables, r': IngestResult)
    requires Ingests(digest, before, b, rate, after, r) && r.Accepted?
    requires Ingests(digest, after, again, rate', after', r') && again.id == b.id && r' != Rejected
    ensures after' == after && (again.hash == b.hash <==> r' == Duplicate) && (again.hash != b.hash <==> r' == Conflict)
  {
    hide InsertSamples;
    hide SamplesOf;
    hide Count;
  }

  // ----- Samples -----

  /** A decision that is not a deny is sampled when it falls in the first rate * 10 s of its 10 s window. */
  lemma SampledIff(d: Decision, rate: real, window: int)
    requires !d.action.Deny? && 10000 * window <= d.decidedAt < 10000 * (window + 1)
    ensures ShouldSample(d, rate) <==> (d.decidedAt - 10000 * window) as real < rate * 10000.0
  {
    assert d.decidedAt % 10000 == d.decidedAt - 10000 * window;
  }

  /** The n milliseconds from one on. */
  function Span(from: int, n: nat): (s: set<int>)
    ensures |s| == n && forall t :: t in s <==> from <= t < from + n
  {
    if n == 0 then {} else Span(from, n - 1) + {from + n - 1}
  }

  /** At a rate of n in 10000, exactly n of the 10000 milliseconds of any window are sampled for other actions. */
  lemma SampledShare(d: Decision, n: nat, window: int)
    requires !d.action.Deny? && n <= 10000
    ensures |set t | 10000 * window <= t < 10000 * window + 10000 &&
                     ShouldSample(d.(decidedAt := t), n as real / 10000.0)| == n
  {
    forall t | 10000 * window <= t < 10000 * window + 10000
      ensures ShouldSample(d.(decidedAt := t), n as real / 10000.0) <==> t < 10000 * window + n
    {
      SampledIff(d.(decidedAt := t), n as real / 10000.0, window);
    }
    hide ShouldSample;
    assert (set t | 10000 * window <= t < 10000 * window + 10000 &&
                    ShouldSample(d.(decidedAt := t), n as real / 10000.0)) ==
           Span(10000 * window, n);
  }

  lemma {:induction false} SamplesIff(ds: seq<Decision>, rate: real)
    ensures forall d :: d in SamplesOf(ds, rate) <==> d in ds && ShouldSample(d, rate)
  {
    hide ShouldSample;
    if ds != [] {
      SamplesIff(ds[..|ds|-1], rate);
      assert ds == ds[..|ds|-1] + [ds[|ds|-1]];
    }
  }

  /** The row tells the decision: every field, with an empty principal or reason left out. */
  predicate Shows(row: SampleRow, d: Decision) {
    && row.walSeq == d.walSeq && row.fingerprint == d.fingerprint && row.score == d.score
    && row.blacklisted == d.blacklisted && row.action == d.action && row.decidedAt == d.decidedAt
    && (d.principalId == [] ==> row.principalId.None?)
    && (d.principalId != [] ==> row.principalId == Some(d.principalId))
    && (d.scoreReason == [] ==> row.scoreReason.None?)
    && (d.scoreReason != [] ==> row.scoreReason == Some(d.scoreReason))
  }

  /**
    The sample table after an accepted batch: old rows stay as they are; a number is added exactly when the batch has a
    deny under it, or another decision in the sampled part of its 10 s window; the row added tells such a decision.
   */
  lemma SamplesAfterBatch(digest: Digest, before: Tables, b: Batch, rate: real, after: Tables, r: IngestResult, s: int)
    requires Ingests(digest, before, b, rate, after, r) && r.Accepted?
    ensures s in before.samples ==> s in after.samples && after.samples[s] == before.samples[s]
    ensures s in after.samples <==>
            || s in before.samples
            || exists d :: d in b.decisions && d.walSeq == s
                           && (d.action.Deny? || (d.decidedAt % 10000) as real < rate * 10000.0)
    ensures s in after.samples && s !in before.samples ==>
            exists d :: d in b.decisions && Shows(after.samples[s], d) && d.walSeq == s
                        && (d.action.Deny? || (d.decidedAt % 10000) as real < rate * 10000.0)
  {
    InsertedSamples(before.samples, SamplesOf(b.decisions, rate));
    SamplesIff(b.decisions, rate);
    forall d ensures ShouldSample(d, rate) <==> d.action.Deny? || (d.decidedAt % 10000) as real < rate * 10000.0 {
      if !d.action.Deny? { SampledIff(d, rate, d.decidedAt / 10000); }
    }
    hide SamplesOf;
    hide InsertSamples;
    hide Count;
    hide ShouldSample;
    hide ShapeOk;
  }


  lemma {:induction false} SamplesHoldDenies(ds: seq<Decision>, rate: real)
    ensures forall d :: d in SamplesOf(ds, rate) ==> d in ds
    ensures forall d :: d in ds && d.action.Deny? ==> d in SamplesOf(ds, rate)
  {
    if ds != [] {
      SamplesHoldDenies(ds[..|ds|-1], rate);
      assert ds == ds[..|ds|-1] + [ds[|ds|-1]];
    }
  }

  /** Old rows stay; every inserted number is present; every new row is the row of an inserted decision. */
  lemma {:induction false} InsertedSamples(table: map<int, SampleRow>, ds: seq<Decision>)
    ensures forall s :: s in table ==> s in InsertSamples(table, ds) && InsertSamples(table, ds)[s] == table[s]
    ensures forall d :: d in ds ==> d.walSeq in InsertSamples(table, ds)
    ensures forall s :: s in InsertSamples(table, ds) && s !in table ==>
              exists d :: d in ds && d.walSeq == s && InsertSamples(table, ds)[s] == RowOf(d)
  {
    if ds != [] {
      var last := |ds| - 1;
      InsertedSamples(table, ds[..last]);
      assert forall d :: d in ds <==> d in ds[..last] || d == ds[last];
    }
  }

  /**
    A batch the edge builds under its own encoding and digest is acceptable to the control plane exactly when it is not
    too long, every decision has a fingerprint, and both sides hash it alike.
   */
  lemma EdgeBatchShapeIff(edge: Digest, server: Digest, ds: seq<Decision>, next: int)
    requires ds != [] && Contiguous(ds, next)
    requires forall i :: 0 <= i < |ds| ==> !ds[i].action.OtherAction?
    ensures ShapeOk(server, BuildBatch(edge, ds)) <==>
            && |ds| <= 500 && (forall i :: 0 <= i < |ds| ==> ds[i].fingerprint != [])
            && edge.hash(ds) == server.hash(ds) && edge.id(edge.hash(ds)) == server.id(server.hash(ds))
  {
    var b := BuildBatch(edge, ds);
    if ShapeOk(server, b) {
      forall i | 0 <= i < |ds| ensures ds[i].fingerprint != [] { assert DecisionOk(b.decisions[i]); }
    }
  }
}
