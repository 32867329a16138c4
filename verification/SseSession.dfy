/** The control plane's side of a stream: one consistent read per batch, event frames in order, then the cursor. */
module SseSession {
  import opened Text
  import opened ScoreLog

  datatype Frame = EventFrame(version: int, event: Event) | CursorFrame(version: int) | Ping

  /** Without a tenant every event is visible, with one the global events and that tenant's. */
  predicate Visible(e: Event, tenant: Option<Str>) {
    !e.Other? || tenant.None? || e.tenant.None? || e.tenant == tenant
  }

  /** Versions above since and up to hw that the tenant may see, in order. */
  function Versions(log: seq<Event>, since: int, hw: nat, tenant: Option<Str>): (vs: seq<int>)
    requires hw <= |log|
    ensures forall i :: 0 <= i < |vs| ==> since < vs[i] <= hw && 1 <= vs[i]
    decreases hw
  {
    if hw == 0 || hw <= since then []
    else Versions(log, since, hw - 1, tenant) + (if Visible(log[hw-1], tenant) then [hw] else [])
  }

  function Take(vs: seq<int>, limit: nat): seq<int> {
    if |vs| <= limit then vs else vs[..limit]
  }

  function EventFrames(log: seq<Event>, vs: seq<int>): (fs: seq<Frame>)
    requires forall i :: 0 <= i < |vs| ==> 1 <= vs[i] <= |log|
    ensures |fs| == |vs| && forall i :: 0 <= i < |fs| ==> fs[i] == EventFrame(vs[i], log[vs[i]-1])
  {
    seq(|vs|, i requires 0 <= i < |vs| => EventFrame(vs[i], log[vs[i]-1]))
  }

  /** One read of the log: the first limit visible events above since, and the global high water. */
  function Batch(log: seq<Event>, since: int, tenant: Option<Str>, limit: nat): (r: (seq<Frame>, int))
    ensures r.1 == |log|
  {
    (EventFrames(log, Take(Versions(log, since, |log|, tenant), limit)), |log|)
  }

  /** How many events fit before the first whose frame is too large. */
  function Sendable(events: seq<Frame>, oversized: Frame -> bool): (k: nat)
    ensures k <= |events|
    ensures (forall i :: 0 <= i < k ==> !oversized(events[i])) && (k < |events| ==> oversized(events[k]))
  {
    if events == [] || oversized(events[0]) then 0 else 1 + Sendable(events[1..], oversized)
  }

  datatype Session = Session(lastEmittedHw: int, queued: seq<Frame>, aborted: bool)

  /** A batch followed by its cursor frame, unless an oversized event ends the session first. */
  function Emit(s: Session, events: seq<Frame>, hw: int, oversized: Frame -> bool): Session {
    var k := Sendable(events, oversized);
    if k < |events| then Session(s.lastEmittedHw, s.queued + events[..k], true)
    else if hw > s.lastEmittedHw then Session(hw, s.queued + events + [CursorFrame(hw)], s.aborted)
    else Session(s.lastEmittedHw, s.queued + events, s.aborted)
  }

  /**
    What a batch puts on the stream. With no event too large: all of them, in order, and then the cursor, if it is news.
    With one too large: the events before the first such, no cursor, and the session ends.
   */
  lemma EmitMeaning(s: Session, events: seq<Frame>, hw: int, oversized: Frame -> bool, k: nat)
    requires k <= |events| && forall i :: 0 <= i < k ==> !oversized(events[i])
    ensures var after := Emit(s, events, hw, oversized);
            && (k == |events| && hw > s.lastEmittedHw ==>
                after == Session(hw, s.queued + events + [CursorFrame(hw)], s.aborted))
            && (k == |events| && hw <= s.lastEmittedHw ==>
                after == Session(s.lastEmittedHw, s.queued + events, s.aborted))
            && (k < |events| && oversized(events[k]) ==>
                after == Session(s.lastEmittedHw, s.queued + events[..k], true))
  {
    var n := Sendable(events, oversized);
    assert n < |events| ==> oversized(events[n]);
    assert k < |events| && oversized(events[k]) ==> n == k;
  }

  class Sender {
    var lastEmittedHw: int
    var queued: seq<Frame>
    var aborted: bool

    function State(): Session
      reads this
    {
      Session(lastEmittedHw, queued, aborted)
    }

    /** Opens with nothing emitted, then sends the initial batch. */
    constructor ()
      ensures State() == Session(-1, [], false)
    {
      lastEmittedHw, queued, aborted := -1, [], false;
    }

    /** Refused once the session is aborted, so no cursor follows a batch that was cut short. */
    method Enqueue(f: Frame) returns (ok: bool)
      modifies this`queued
      ensures ok <==> !aborted
      ensures queued == if ok then old(queued) + [f] else old(queued)
    {
      if aborted { return false; }
      queued := queued + [f];
      return true;
    }

    /** One turn of the session, initial batch or poll: the event loop, then the cursor. */
    method SendBatch(events: seq<Frame>, highWater: int, oversized: Frame -> bool)
      requires !aborted
      modifies this
      ensures State() == Emit(old(State()), events, highWater, oversized)
    {
      ghost var before := State();
      var i := 0;
      assert events[0..] == events;
      while i < |events|
        invariant 0 <= i <= |events| && !aborted && lastEmittedHw == before.lastEmittedHw
        invariant queued == before.queued + events[..i]
        invariant Sendable(events, oversized) == i + Sendable(events[i..], oversized)
      {
        if oversized(events[i]) {
          aborted := true;
          break;
        }
        var _ := Enqueue(events[i]);
        assert events[i..][1..] == events[i+1..];
        i := i + 1;
      }
      if highWater > lastEmittedHw {
        var ok := Enqueue(CursorFrame(highWater));
        if ok { lastEmittedHw := highWater; } else { aborted := true; }
      }
    }
  }
}
