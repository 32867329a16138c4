/** Network scores, the versioned event log that carries them, and replaying it. */
module ScoreLog {
  import opened Text

  datatype ScoreRow = ScoreRow(principalId: Str, kind: Str, score: int, blacklisted: bool, reason: Str)

  type Table = map<Str, ScoreRow>

  /**
    Score events are global; every other event may belong to one tenant, and the edge may find its payload unusable.
   */
  datatype Event = Upsert(row: ScoreRow) | Delete(principalId: Str) | Other(tenant: Option<Str>, usable: bool)

  function ApplyTo(t: Table, e: Event): Table {
    match e
    case Upsert(row) => t[row.principalId := row]
    case Delete(id) => t - {id}
    case Other(_, _) => t
  }

  /** The score table a log describes. */
  function Replay(log: seq<Event>): Table {
    if log == [] then map[] else ApplyTo(Replay(log[..|log|-1]), log[|log|-1])
  }

  lemma ReplayAppend(log: seq<Event>, e: Event)
    ensures Replay(log + [e]) == ApplyTo(Replay(log), e)
  {
    assert (log + [e])[..|log|] == log;
  }

  /** Each row sits under its own id. */
  predicate WellKeyed(t: Table) {
    forall id :: id in t ==> t[id].principalId == id
  }

  lemma {:induction false} ReplayWellKeyed(log: seq<Event>)
    ensures WellKeyed(Replay(log))
  {
    if log != [] { ReplayWellKeyed(log[..|log|-1]); }
  }

  /** No score event among versions a+1..b. */
  predicate NoScore(log: seq<Event>, a: int, b: int) {
    forall i :: 0 <= i < |log| && a <= i < b ==> log[i].Other?
  }

  /** A stretch without score events leaves the replayed table alone. */
  lemma {:induction false} ReplayAcross(log: seq<Event>, a: nat, b: nat)
    requires a <= b <= |log| && NoScore(log, a, b)
    ensures Replay(log[..a]) == Replay(log[..b])
    decreases b
  {
    if a < b {
      ReplayAcross(log, a, b - 1);
      ReplayAppend(log[..b-1], log[b-1]);
      assert log[..b] == log[..b-1] + [log[b-1]];
    }
  }
}

/** The score writer: applying an engine table to the stored one, emitting one event per difference. */
module ScoreWriter {
  import opened Text
  import opened ScoreLog

  datatype LogRow = LogRow(version: int, event: Event)

  function Events(log: seq<LogRow>): (r: seq<Event>)
    ensures |r| == |log| && forall i :: 0 <= i < |r| ==> r[i] == log[i].event
  {
    seq(|log|, i requires 0 <= i < |log| => log[i].event)
  }

  /** COALESCE(MAX(sync_version), 0) */
  function MaxVersion(log: seq<LogRow>): int {
    if log == [] then 0
    else var m := MaxVersion(log[..|log|-1]); if log[|log|-1].version > m then log[|log|-1].version else m
  }

  /** Versions are 1..n without gaps. */
  predicate Numbered(log: seq<LogRow>) {
    forall i :: 0 <= i < |log| ==> log[i].version == i + 1
  }

  lemma {:induction false} NumberedMax(log: seq<LogRow>)
    requires Numbered(log)
    ensures MaxVersion(log) == |log|
  {
    if log != [] { NumberedMax(log[..|log|-1]); }
  }

  predicate ScoreChanged(prev: ScoreRow, next: ScoreRow) {
    || prev.score != next.score || prev.blacklisted != next.blacklisted
    || prev.reason != next.reason || prev.kind != next.kind
  }

  predicate Distinct(rows: seq<ScoreRow>) {
    forall i, j :: 0 <= i < j < |rows| ==> rows[i].principalId != rows[j].principalId
  }

  /** The engine's rows as a table; a later row for the same id would win. */
  function TableOf(rows: seq<ScoreRow>): Table {
    if rows == [] then map[] else TableOf(rows[..|rows|-1])[rows[|rows|-1].principalId := rows[|rows|-1]]
  }

  lemma {:induction false} TableOfRows(rows: seq<ScoreRow>)
    requires Distinct(rows)
    ensures forall i :: 0 <= i < |rows| ==>
            rows[i].principalId in TableOf(rows) && TableOf(rows)[rows[i].principalId] == rows[i]
    ensures forall id :: id in TableOf(rows) ==> exists i :: 0 <= i < |rows| && rows[i].principalId == id
  {
    if rows != [] {
      var last := |rows| - 1;
      TableOfRows(rows[..last]);
      forall id | id in TableOf(rows) ensures exists i :: 0 <= i < |rows| && rows[i].principalId == id {
        if id != rows[last].principalId {
          var i :| 0 <= i < last && rows[..last][i].principalId == id;
          assert rows[i].principalId == id;
        }
      }
    }
  }

  /** Ids whose rows differ between two tables. */
  function Differ(a: Table, b: Table): set<Str> {
    set id | id in a.Keys + b.Keys && !(id in a && id in b && a[id] == b[id])
  }

  lemma NextRow(existing: Table, rows: seq<ScoreRow>, i: nat, changed: bool)
    requires WellKeyed(existing) && Distinct(rows) && i < |rows|
    requires changed <==> rows[i].principalId !in existing || ScoreChanged(existing[rows[i].principalId], rows[i])
    ensures var t, t' := existing + TableOf(rows[..i]), existing + TableOf(rows[..i+1]);
            && (changed ==> t' == t[rows[i].principalId := rows[i]] && rows[i].principalId !in Differ(existing, t)
                            && Differ(existing, t') == Differ(existing, t) + {rows[i].principalId})
            && (!changed ==> t' == t)
  {
    var engine, id := TableOf(rows[..i]), rows[i].principalId;
    assert rows[..i+1][..i] == rows[..i];
    TableOfRows(rows[..i]);
    assert id !in engine;
    assert TableOf(rows[..i+1]) == engine[id := rows[i]];
    MergeRow(existing, engine, rows[i], changed);
  }

  lemma MergeRow(existing: Table, engine: Table, row: ScoreRow, changed: bool)
    requires WellKeyed(existing) && row.principalId !in engine
    requires changed <==> row.principalId !in existing || ScoreChanged(existing[row.principalId], row)
    ensures var t, t' := existing + engine, existing + engine[row.principalId := row];
            && (changed ==> t' == t[row.principalId := row] && row.principalId !in Differ(existing, t)
                            && Differ(existing, t') == Differ(existing, t) + {row.principalId})
            && (!changed ==> t' == t)
  {
  }

  lemma IdsOfTable(rows: seq<ScoreRow>)
    requires Distinct(rows)
    ensures TableOf(rows).Keys == set r | r in rows :: r.principalId
  {
    TableOfRows(rows);
    forall r | r in rows ensures r.principalId in TableOf(rows) {
      var i :| 0 <= i < |rows| && rows[i] == r;
    }
  }

  lemma DifferAt(before: Table, engine: Table, middle: Table, after: Table, id: Str)
    requires middle == before + engine && after == middle - (before.Keys - engine.Keys)
    ensures id in after <==> id in engine
    ensures id in after ==> after[id] == engine[id]
    ensures id in Differ(before, after) <==> id in Differ(before, middle) || id in before.Keys - engine.Keys
    ensures !(id in Differ(before, middle) && id in before.Keys - engine.Keys)
  {
  }

  lemma SizeOfSplit(whole: set<Str>, a: set<Str>, b: set<Str>)
    requires forall id :: id in whole <==> id in a || id in b
    requires forall id :: !(id in a && id in b)
    ensures |whole| == |a| + |b|
  {
    assert whole == a + b && a !! b;
  }

  lemma AfterIsEngine(before: Table, engine: Table, middle: Table, after: Table)
    requires middle == before + engine && after == middle - (before.Keys - engine.Keys)
    ensures after == engine
  {
    forall id ensures (id in after <==> id in engine) && (id in after ==> after[id] == engine[id]) {
      DifferAt(before, engine, middle, after, id);
    }
  }

  lemma EventsMatchDifferences(before: Table, engine: Table, middle: Table, after: Table)
    requires middle == before + engine && after == middle - (before.Keys - engine.Keys)
    ensures after == engine
    ensures |Differ(before, after)| == |Differ(before, middle)| + |before.Keys - engine.Keys|
  {
    hide Differ;
    AfterIsEngine(before, engine, middle, after);
    var whole, changed, gone := Differ(before, after), Differ(before, middle), before.Keys - engine.Keys;
    forall id ensures (id in whole <==> id in changed || id in gone) && !(id in changed && id in gone) {
      DifferAt(before, engine, middle, after, id);
    }
    SizeOfSplit(whole, changed, gone);
  }

  class ScoreWriter {
    var table: Table
    var log: seq<LogRow>

    /** The stored table is what the log replays to, and the log is numbered without gaps. */
    ghost predicate Valid()
      reads this
    {
      table == Replay(Events(log)) && Numbered(log)
    }

    constructor ()
      ensures Valid() && table == map[] && log == []
    {
      table, log := map[], [];
    }

    method AppendEvent(e: Event)
      requires Numbered(log)
      modifies this`log
      ensures log == old(log) + [LogRow(|old(log)| + 1, e)] && Numbered(log)
      ensures Events(log) == Events(old(log)) + [e]
    {
      NumberedMax(log);
      log := log + [LogRow(MaxVersion(log) + 1, e)];
    }

    method Upsert(row: ScoreRow)
      requires Valid()
      modifies this
      ensures Valid() && table == old(table)[row.principalId := row] && |log| == |old(log)| + 1 && old(log) <= log
    {
      ReplayAppend(Events(log), ScoreLog.Upsert(row));
      AppendEvent(ScoreLog.Upsert(row));
      table := table[row.principalId := row];
    }

    method Delete(id: Str)
      requires Valid()
      modifies this
      ensures Valid() && table == old(table) - {id} && |log| == |old(log)| + 1 && old(log) <= log
    {
      ReplayAppend(Events(log), ScoreLog.Delete(id));
      AppendEvent(ScoreLog.Delete(id));
      table := table - {id};
    }

    /** First loop: rows that are new or changed against the table as it was when the transaction began. */
    method UpsertChanged(rows: seq<ScoreRow>) returns (upserts: nat)
      requires Valid()
      modifies this
      ensures Valid() && old(log) <= log && |log| == |old(log)| + upserts
      ensures old(table).Keys <= table.Keys
      ensures Distinct(rows) ==> table == old(table) + TableOf(rows) && upserts == |Differ(old(table), table)|
    {
      var existing := table;
      ReplayWellKeyed(Events(log));
      upserts := 0;
      for i := 0 to |rows|
        invariant Valid() && old(log) <= log && |log| == |old(log)| + upserts
        invariant existing.Keys <= table.Keys
        invariant Distinct(rows) ==> table == existing + TableOf(rows[..i])
        invariant Distinct(rows) ==> upserts == |Differ(existing, table)|
      {
        var row := rows[i];
        assert rows[..i+1][..i] == rows[..i];
        var changed := row.principalId !in existing || ScoreChanged(existing[row.principalId], row);
        if Distinct(rows) { NextRow(existing, rows, i, changed); }
        if changed {
          Upsert(row);
          upserts := upserts + 1;
        }
      }
      assert rows[..|rows|] == rows;
    }

    /** Second loop: stored ids the engine no longer lists, in no particular order. */
    method DeleteMissing(existing: set<Str>, nextIds: set<Str>) returns (deletes: nat)
      requires Valid() && existing <= table.Keys
      modifies this
      ensures Valid() && old(log) <= log && |log| == |old(log)| + deletes
      ensures table == old(table) - (existing - nextIds) && deletes == |existing - nextIds|
    {
      deletes := 0;
      var todo := existing - nextIds;
      ghost var gone: set<Str> := {};
      while todo != {}
        invariant gone !! todo && gone + todo == existing - nextIds
        invariant Valid() && old(log) <= log && |log| == |old(log)| + deletes
        invariant table == old(table) - gone && deletes == |gone|
        decreases todo
      {
        var id :| id in todo;
        Delete(id);
        todo, gone := todo - {id}, gone + {id};
        deletes := deletes + 1;
      }
    }

    /**
      Applies an engine table in one transaction. Whatever the rows, the stored table stays the replay of the log;
      with one row per id it becomes exactly the engine table, and the log grows by one event per differing id.
     */
    method ApplyScoreTable(rows: seq<ScoreRow>) returns (upserts: nat, deletes: nat)
      requires Valid()
      modifies this
      ensures Valid() && old(log) <= log && |log| == |old(log)| + upserts + deletes
      ensures Distinct(rows) ==> table == TableOf(rows) && upserts + deletes == |Differ(old(table), table)|
      ensures deletes == |old(table).Keys - set r | r in rows :: r.principalId|
      ensures Distinct(rows) ==> table.Keys == set r | r in rows :: r.principalId
      ensures Distinct(rows) ==> forall i :: 0 <= i < |rows| ==>
              rows[i].principalId in table && table[rows[i].principalId] == rows[i]
    {
      var existing := table.Keys;
      var nextIds := set r | r in rows :: r.principalId;
      ghost var before := table;
      upserts := UpsertChanged(rows);
      ghost var middle := table;
      deletes := DeleteMissing(existing, nextIds);
      if Distinct(rows) {
        IdsOfTable(rows);
        TableOfRows(rows);
        EventsMatchDifferences(before, TableOf(rows), middle, table);
      }
    }

    /** With no roots left the control plane clears every score. */
    method ClearAllScores() returns (deletes: nat)
      requires Valid()
      modifies this
      ensures Valid() && table == map[] && old(log) <= log && |log| == |old(log)| + deletes && deletes == |old(table)|
    {
      assert Differ(table, map[]) == table.Keys == table.Keys - set r: ScoreRow | r in [] :: r.principalId;
      var _, d := ApplyScoreTable([]);
      deletes := d;
    }
  }
}
