/** The edge's live store: a copy-on-write score snapshot, a separate high-water cursor, and the snapshot file. */
module EdgeStore {
  import opened Text
  import opened ScoreLog

  datatype Snapshot = Snapshot(highWater: int, scores: Table)

  /** The live snapshot, if any, and the cursor, which may run ahead of the snapshot's own mark. */
  datatype Edge = Edge(snapshot: Option<Snapshot>, hw: int)

  datatype ApplyError = InvalidVersion | BadPayload

  function Scores(edge: Edge): Table {
    if edge.snapshot.None? then map[] else edge.snapshot.value.scores
  }

  /** Upserts and deletes must name a principal; key and policy events must be usable; unknown types always are. */
  predicate Applicable(e: Event) {
    match e
    case Upsert(row) => row.principalId != []
    case Delete(id) => id != []
    case Other(_, usable) => usable
  }

  function Applied(edge: Edge, version: int, e: Event): Result<Edge, ApplyError> {
    if version <= 0 then Err(InvalidVersion)
    else if version <= edge.hw then Ok(edge)
    else if !Applicable(e) then Err(BadPayload)
    else Ok(Edge(Some(Snapshot(version, ApplyTo(Scores(edge), e))), version))
  }

  function AdvanceCursor(edge: Edge, v: int): Edge {
    if v <= 0 || v <= edge.hw then edge else edge.(hw := v)
  }

  /** A snapshot replaces everything, its mark included, however it compares with the cursor. */
  function ApplySnapshot(snap: Snapshot): Edge {
    Edge(Some(snap), snap.highWater)
  }

  function SnapshotForPersist(edge: Edge): Snapshot {
    Snapshot(edge.hw, Scores(edge))
  }

  /**
    What an event does, case by case. A version at or below 0 and, above the high water, an event without a principal
    or with an unusable payload are refused. A version up to the high water was applied before and changes nothing. Any
    other event moves the high water to its version; an upsert then stores its row under its own id, a delete removes
    its id, every other event leaves the scores alone, and no other id is touched.
   */
  lemma AppliedMeaning(edge: Edge, version: int, e: Event)
    ensures version <= 0 ==> Applied(edge, version, e) == Err(InvalidVersion)
    ensures 0 < version <= edge.hw ==> Applied(edge, version, e) == Ok(edge)
    ensures version > 0 && version > edge.hw ==>
            match e
            case Upsert(row) =>
              if row.principalId == [] then Applied(edge, version, e) == Err(BadPayload)
              else && Applied(edge, version, e).Ok?
                   && var after := Applied(edge, version, e).value;
                      && after.hw == version
                      && Scores(after).Keys == Scores(edge).Keys + {row.principalId}
                      && Scores(after)[row.principalId] == row
                      && forall id :: id in Scores(edge) && id != row.principalId ==>
                           Scores(after)[id] == Scores(edge)[id]
            case Delete(gone) =>
              if gone == [] then Applied(edge, version, e) == Err(BadPayload)
              else && Applied(edge, version, e).Ok?
                   && var after := Applied(edge, version, e).value;
                      && after.hw == version
                      && Scores(after).Keys == Scores(edge).Keys - {gone}
                      && forall id :: id in Scores(after) ==> Scores(after)[id] == Scores(edge)[id]
            case Other(_, usable) =>
              if !usable then Applied(edge, version, e) == Err(BadPayload)
              else && Applied(edge, version, e).Ok?
                   && Applied(edge, version, e).value.hw == version
                   && Scores(Applied(edge, version, e).value) == Scores(edge)
  {}

  class Store {
    var ptr: Option<Snapshot>
    var hw: int

    function State(): Edge
      reads this
    {
      Edge(ptr, hw)
    }

    constructor ()
      ensures State() == Edge(None, 0)
    {
      ptr, hw := None, 0;
    }

    method Swap(next: Snapshot)
      modifies this
      ensures State() == ApplySnapshot(next)
    {
      ptr := Some(next);
      hw := next.highWater;
    }

    method ApplyEvent(version: int, e: Event) returns (r: Result<(), ApplyError>)
      modifies this
      ensures r.Ok? <==> Applied(old(State()), version, e).Ok?
      ensures r.Ok? ==> State() == Applied(old(State()), version, e).value
      ensures r.Err? ==> State() == old(State()) && r.error == Applied(old(State()), version, e).error
    {
      if version <= 0 { return Err(InvalidVersion); }
      if version <= hw { return Ok(()); }
      var scores := if ptr.None? then map[] else ptr.value.scores;
      match e {
        case Upsert(row) =>
          if row.principalId == [] { return Err(BadPayload); }
          scores := scores[row.principalId := row];
        case Delete(id) =>
          if id == [] { return Err(BadPayload); }
          scores := scores - {id};
        case Other(_, usable) =>
          if !usable { return Err(BadPayload); }
      }
      Swap(Snapshot(version, scores));
      return Ok(());
    }

    method AdvanceHighWater(v: int)
      modifies this`hw
      ensures State() == AdvanceCursor(old(State()), v)
      ensures hw >= old(hw) && Scores(State()) == Scores(old(State()))
      ensures v > 0 ==> hw >= v
    {
      if v <= 0 { return; }
      if v <= hw { return; }
      hw := v;
    }

    /** The live scores under the live cursor, which may be past the mark the scores were stored with. */
    method ForPersist() returns (snap: Snapshot)
      ensures snap == SnapshotForPersist(State())
      ensures snap.highWater == hw && snap.scores == Scores(State())
    {
      snap := Snapshot(hw, if ptr.None? then map[] else ptr.value.scores);
    }
  }

  // ----- The snapshot file -----

  /** The rows of a table, once each, in any order. */
  ghost predicate Lists(rows: seq<ScoreRow>, t: Table) {
    && (forall i, j :: 0 <= i < j < |rows| ==> rows[i].principalId != rows[j].principalId)
    && (forall i :: 0 <= i < |rows| ==> rows[i].principalId in t && t[rows[i].principalId] == rows[i])
    && (forall id :: id in t ==> exists i :: 0 <= i < |rows| && rows[i].principalId == id)
  }

  /** Saving: the map is read in no particular order. */
  method SaveScores(t: Table) returns (rows: seq<ScoreRow>)
    requires WellKeyed(t)
    ensures Lists(rows, t)
  {
    rows := [];
    var todo := t.Keys;
    while todo != {}
      invariant todo <= t.Keys
      invariant Lists(rows, t - todo)
      decreases todo
    {
      var id :| id in todo;
      ghost var before := rows;
      rows := rows + [t[id]];
      ListsGrows(before, t, todo, id);
      todo := todo - {id};
    }
    assert t - {} == t;
  }

  lemma ListsGrows(rows: seq<ScoreRow>, t: Table, todo: set<Str>, id: Str)
    requires WellKeyed(t) && todo <= t.Keys && id in todo && Lists(rows, t - todo)
    ensures Lists(rows + [t[id]], t - (todo - {id}))
  {
    var longer, rest := rows + [t[id]], t - (todo - {id});
    assert rest.Keys == (t - todo).Keys + {id};
    forall k | k in rest ensures exists i :: 0 <= i < |longer| && longer[i].principalId == k {
      if k == id {
        assert longer[|rows|].principalId == k;
      } else {
        var i :| 0 <= i < |rows| && rows[i].principalId == k;
        assert longer[i].principalId == k;
      }
    }
  }

  /** Loading: an empty or repeated id refuses the file. */
  method LoadScores(rows: seq<ScoreRow>) returns (r: Result<Table, string>)
    ensures r.Ok? <==> (forall i :: 0 <= i < |rows| ==> rows[i].principalId != []) &&
                       forall i, j :: 0 <= i < j < |rows| ==> rows[i].principalId != rows[j].principalId
    ensures r.Ok? ==> Lists(rows, r.value)
  {
    var t: Table := map[];
    for i := 0 to |rows|
      invariant forall k :: 0 <= k < i ==> rows[k].principalId != []
      invariant Lists(rows[..i], t)
    {
      var id := rows[i].principalId;
      if id == [] { return Err("score entry missing principal_id"); }
      if id in t {
        var k :| 0 <= k < i && rows[..i][k].principalId == id;
        assert rows[k].principalId == rows[i].principalId;
        return Err("duplicate principal_id");
      }
      ghost var before := t;
      t := t[id := rows[i]];
      LoadGrows(rows, i, before);
    }
    assert rows[..|rows|] == rows;
    return Ok(t);
  }

  lemma LoadGrows(rows: seq<ScoreRow>, i: nat, t: Table)
    requires i < |rows| && Lists(rows[..i], t) && rows[i].principalId !in t
    ensures Lists(rows[..i+1], t[rows[i].principalId := rows[i]])
  {
    assert rows[..i+1] == rows[..i] + [rows[i]];
    RowAdded(rows[..i], t, rows[i]);
  }

  lemma RowAdded(rows: seq<ScoreRow>, t: Table, row: ScoreRow)
    requires Lists(rows, t) && row.principalId !in t
    ensures Lists(rows + [row], t[row.principalId := row])
  {
    var longer, t' := rows + [row], t[row.principalId := row];
    assert forall k :: 0 <= k < |rows| ==> longer[k] == rows[k];
    forall id | id in t' ensures exists k :: 0 <= k < |longer| && longer[k].principalId == id {
      if id == row.principalId {
        assert longer[|rows|].principalId == id;
      } else {
        var k :| 0 <= k < |rows| && rows[k].principalId == id;
        assert longer[k].principalId == id;
      }
    }
  }

  /** Whatever order the rows were saved in, they list only one table, so loading returns the one saved. */
  lemma SaveLoadRoundTrip(rows: seq<ScoreRow>, saved: Table, loaded: Table)
    requires Lists(rows, saved) && Lists(rows, loaded)
    ensures saved == loaded
  {
    forall id ensures id in saved <==> id in loaded {
      if id in saved { var i :| 0 <= i < |rows| && rows[i].principalId == id; }
      if id in loaded { var i :| 0 <= i < |rows| && rows[i].principalId == id; }
    }
    forall id | id in saved ensures saved[id] == loaded[id] {
      var i :| 0 <= i < |rows| && rows[i].principalId == id;
    }
  }

  /**
    Saving a store, whatever order its scores are read in, and loading the file into a new one: the new store has the
    high water and the scores of the old.
   */
  method SaveAndReload(store: Store) returns (reloaded: Store)
    requires WellKeyed(Scores(store.State())) && [] !in Scores(store.State())
    ensures fresh(reloaded)
    ensures reloaded.hw == store.hw && Scores(reloaded.State()) == Scores(store.State())
  {
    var snap := store.ForPersist();
    var rows := SaveScores(snap.scores);
    var loaded := LoadScores(rows);
    SaveLoadRoundTrip(rows, snap.scores, loaded.value);
    reloaded := new Store();
    reloaded.Swap(Snapshot(snap.highWater, loaded.value));
  }
}
