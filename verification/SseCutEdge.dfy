/** What a stream of score events and cursors that breaks off anywhere does to the edge. */
module SseCutEdge {
  import opened Text
  import opened ScoreLog
  import opened EdgeStore
  import opened SseSession
  import opened Replication
  import SseWire
  import SseCut

  /** The event types the edge tells apart. */
  const TYPES: set<string> :=
    {"score.upsert", "score.delete", "key.upsert", "key.revoke", "policy.replace", "cursor", "shutdown"}

  function NameOf(e: Event): string
    requires !e.Other?
  {
    if e.Upsert? then "score.upsert" else "score.delete"
  }

  /** How score events are written as payloads, and what the edge reads a name and a payload as, if it can. */
  datatype Codec = Codec(payload: Event -> string, decode: (string, string) -> Option<Event>)

  /** Payloads are JSON objects on one line: each reads back, and no cut one can be read. */
  ghost predicate CodecOk(c: Codec) {
    forall e: Event :: !e.Other? ==>
      && SseWire.Plain(c.payload(e)) && c.decode(NameOf(e), c.payload(e)) == Some(e)
      && forall m :: 0 <= m < |c.payload(e)| ==> c.decode(NameOf(e), SseWire.TrimEnd(c.payload(e)[..m])) == None
  }

  /** One event handed on by the reader; None ends the session, with the edge as it was. */
  function OnEvent(c: Codec, edge: Edge, e: SseWire.Event): Option<Edge> {
    if e.name == "shutdown" then None
    else
      match SseWire.ParseId(e.id)
      case None => Some(edge)
      case Some(v) =>
        if e.name == "cursor" then Some(AdvanceCursor(edge, v))
        else if v == 0 || v <= edge.hw then Some(edge)
        else if e.name !in TYPES then Known(Receive(edge, EventFrame(v, Other(None, true))))
        else
          match c.decode(e.name, e.data)
          case None => None
          case Some(event) => Known(Receive(edge, EventFrame(v, event)))
  }

  function Known(r: Result<Edge, ApplyError>): Option<Edge> {
    if r.Ok? then Some(r.value) else None
  }

  /** The events handed on, until the session ends. */
  function OnAll(c: Codec, edge: Edge, events: seq<SseWire.Event>): Edge
    decreases |events|
  {
    if events == [] then edge
    else match OnEvent(c, edge, events[0])
      case None => edge
      case Some(next) => OnAll(c, next, events[1..])
  }

  // ----- Printing frames -----

  function ItemOf(c: Codec, f: Frame): SseWire.Item
    requires Printable(f)
  {
    match f
    case EventFrame(v, e) => SseWire.EventItem(NameOf(e), Some(v), c.payload(e))
    case CursorFrame(v) => SseWire.EventItem("cursor", Some(v), "{}")
    case Ping => SseWire.Comment("ping")
  }

  /** A score event the edge accepts, a cursor or a ping. */
  predicate Printable(f: Frame) {
    match f
    case EventFrame(v, e) => v >= 0 && !e.Other? && Applicable(e)
    case CursorFrame(v) => v >= 0
    case Ping => true
  }

  predicate AllPrintable(c: Codec, frames: seq<Frame>) {
    forall i :: 0 <= i < |frames| ==> Printable(frames[i]) && SseWire.ItemOk(ItemOf(c, frames[i]))
  }

  function ItemsOf(c: Codec, frames: seq<Frame>): (items: seq<SseWire.Item>)
    requires AllPrintable(c, frames)
    ensures forall i :: 0 <= i < |items| ==> SseWire.ItemOk(items[i])
    decreases |frames|
  {
    if frames == [] then [] else [ItemOf(c, frames[0])] + ItemsOf(c, frames[1..])
  }

  /** The cut falls inside the name of a score event that would have changed the scores. */
  ghost predicate SkipsChange(c: Codec, log: seq<Event>, frames: seq<Frame>, k: nat)
    requires AllPrintable(c, frames)
    decreases |frames|
  {
    frames != [] &&
    var f, item := frames[0], ItemOf(c, frames[0]);
    if k < |SseWire.PrintItem(item)| then
      f.EventFrame? && SseCut.NameShows(item) <= k < SseCut.NameWhole(item) && Changes(log, f.version)
    else SkipsChange(c, log, frames[1..], k - |SseWire.PrintItem(item)|)
  }

  predicate Changes(log: seq<Event>, v: int) {
    1 <= v <= |log| && Replay(log[..v-1]) != Replay(log[..v])
  }

  // ----- One frame, whole or cut -----

  lemma {:induction false} ProperPrefix(name: string, full: string, m: nat)
    requires full == "score.upsert" || full == "score.delete" || full == "cursor"
    requires 0 < m < |full| && name == full[..m]
    ensures name !in TYPES
  {
    assert name[0] == full[0];
    assert m > 1 ==> name[1] == full[1];
  }

  /** A cut inside the name hands on a name the edge does not know. */
  lemma CutNameUnknown(item: SseWire.Item, k: nat)
    requires item.EventItem? && SseWire.ItemOk(item) && SseCut.NameShows(item) <= k < SseCut.NameWhole(item)
    requires item.name == "score.upsert" || item.name == "score.delete" || item.name == "cursor"
    ensures SseCut.CutEvent(item, k).Some?
    ensures SseCut.CutEvent(item, k).value.name !in TYPES
    ensures SseCut.CutEvent(item, k).value.id == SseWire.IdText(item.id)
  {
    hide SseWire.IdText;
    hide SseWire.ByteLen;
    var m := k - SseCut.NameShows(item) + 1;
    var p := item.name[..m];
    SseCut.TrimEndShorter(p);
    SseCut.TrimEndKeepsFirst(p);
    var name := SseWire.TrimEnd(p);
    assert name == item.name[..|name|];
    ProperPrefix(name, item.name, |name|);
  }

  lemma IdReads(item: SseWire.Item)
    requires item.EventItem? && item.id.Some? && SseWire.ItemOk(item)
    ensures SseWire.ParseId(SseWire.IdText(item.id)) == Some(item.id.value)
  {
    SseWire.IdRoundTrip(item.id.value);
  }

  /** A whole frame acts as the state machine says. */
  lemma WholeFrame(c: Codec, log: seq<Event>, edge: Edge, f: Frame)
    requires CodecOk(c) && Printable(f) && !f.Ping? && SseWire.ItemOk(ItemOf(c, f)) && FrameOk(log, edge.hw, f)
    ensures Receive(edge, f).Ok?
    ensures OnEvent(c, edge, SseCut.Whole(ItemOf(c, f))) == Some(Receive(edge, f).value)
  {
    hide SseWire.IdText;
    hide SseWire.ParseId;
    hide SseWire.ItemOk;
    IdReads(ItemOf(c, f));
  }

  /** A frame cut inside its name: a cursor does no harm, and a score event none if it changes nothing. */
  lemma CutNameFrame(c: Codec, log: seq<Event>, edge: Edge, f: Frame, k: nat)
    requires Agrees(log, edge) && Printable(f) && !f.Ping? && SseWire.ItemOk(ItemOf(c, f)) && FrameOk(log, edge.hw, f)
    requires SseCut.NameShows(ItemOf(c, f)) <= k < SseCut.NameWhole(ItemOf(c, f))
    ensures SseCut.CutEvent(ItemOf(c, f), k).Some?
    ensures var next := OnEvent(c, edge, SseCut.CutEvent(ItemOf(c, f), k).value);
            && next.Some? && (Agrees(log, next.value) <==> !(f.EventFrame? && Changes(log, f.version)))
  {
    hide SseWire.IdText;
    hide SseWire.ParseId;
    hide SseWire.ItemOk;
    hide SseCut.CutEvent;
    IdReads(ItemOf(c, f));
    CutNameUnknown(ItemOf(c, f), k);
    if f.EventFrame? {
      MistakenEventIff(log, edge, f.version, None);
      ReplayAppend(log[..f.version-1], log[f.version-1]);
      assert log[..f.version-1] + [log[f.version-1]] == log[..f.version];
    } else if f.version > edge.hw {
      ReplayAcross(log, edge.hw, f.version);
    }
  }

  /** A score event cut after its name is refused, or is whole but for its line ends. */
  lemma CutDataEvent(c: Codec, log: seq<Event>, edge: Edge, f: Frame, k: nat)
    requires CodecOk(c) && Printable(f) && f.EventFrame? && SseWire.ItemOk(ItemOf(c, f)) && FrameOk(log, edge.hw, f)
    requires SseCut.NameWhole(ItemOf(c, f)) <= k < SseCut.AllWhole(ItemOf(c, f))
    ensures SseCut.CutEvent(ItemOf(c, f), k).Some?
    ensures OnEvent(c, edge, SseCut.CutEvent(ItemOf(c, f), k).value) == None
  {
    hide SseWire.IdText;
    hide SseWire.ParseId;
    hide SseWire.ItemOk;
    hide SseWire.TrimEnd;
    var item := ItemOf(c, f);
    IdReads(item);
    ScoreNameTrimmed(item.name);
    var m := SseCut.Clip(k - SseCut.NameWhole(item) - 7, |item.data|);
    assert m < |item.data|;
    assert item.data[..0] == "" && item.name[..|item.name|] == item.name;
    EmptyTrimmed();
    assert c.decode(item.name, SseWire.TrimEnd(item.data[..m])) == None;
    assert c.decode(item.name, SseWire.TrimEnd(item.data[..0])) == None;
  }

  lemma EmptyTrimmed()
    ensures SseWire.TrimEnd("") == ""
  {
  }

  lemma ScoreNameTrimmed(name: string)
    requires name == "score.upsert" || name == "score.delete"
    ensures SseWire.TrimEnd(name) == name
  {
    assert name[|name|-1] == 't' || name[|name|-1] == 'e';
  }

  /** A cursor cut after its name still is one: its payload is not read. */
  lemma CutDataCursor(c: Codec, edge: Edge, f: Frame, k: nat)
    requires f.CursorFrame? && Printable(f) && SseWire.ItemOk(ItemOf(c, f)) && SseCut.NameWhole(ItemOf(c, f)) <= k
    ensures SseCut.CutEvent(ItemOf(c, f), k).Some?
    ensures OnEvent(c, edge, SseCut.CutEvent(ItemOf(c, f), k).value) == Some(AdvanceCursor(edge, f.version))
  {
    hide SseWire.IdText;
    hide SseWire.ParseId;
    hide SseWire.ItemOk;
    var item := ItemOf(c, f);
    IdReads(item);
    assert item.name[..|item.name|] == item.name;
    assert "cursor"[5] == 'r' && SseWire.TrimEnd("cursor") == "cursor";
  }

  lemma OnOne(c: Codec, edge: Edge, e: SseWire.Event)
    ensures OnAll(c, edge, [e]) == (match OnEvent(c, edge, e) case None => edge case Some(next) => next)
  {
    hide OnEvent;
    assert [e][1..] == [];
  }

  lemma CutFrameAgreesIff(c: Codec, log: seq<Event>, edge: Edge, f: Frame, k: nat)
    requires CodecOk(c) && Agrees(log, edge) && Printable(f) && !f.Ping? && SseWire.ItemOk(ItemOf(c, f))
    requires FrameOk(log, edge.hw, f)
    ensures var item := ItemOf(c, f);
            Agrees(log, OnAll(c, edge, SseCut.ListOf(SseCut.CutEvent(item, k)))) <==>
            !(f.EventFrame? && SseCut.NameShows(item) <= k < SseCut.NameWhole(item) && Changes(log, f.version))
  {
    hide CodecOk;
    hide OnEvent;
    hide SseWire.ItemOk;
    hide SseCut.CutEvent;
    var item := ItemOf(c, f);
    SseCut.CutEventIff(item, k);
    if k >= SseCut.NameShows(item) {
      OnOne(c, edge, SseCut.CutEvent(item, k).value);
      if k < SseCut.NameWhole(item) {
        CutNameFrame(c, log, edge, f, k);
      } else if f.EventFrame? && k < SseCut.AllWhole(item) {
        CutDataEvent(c, log, edge, f, k);
      } else if f.EventFrame? {
        WholeFrame(c, log, edge, f);
        ReceiveAgrees(log, edge, f);
      } else {
        CutDataCursor(c, edge, f, k);
        ReceiveAgrees(log, edge, f);
      }
    }
  }

  // ----- Streams -----

  lemma {:induction false} SeenAgreesIff(c: Codec, log: seq<Event>, edge: Edge, frames: seq<Frame>, k: nat)
    requires CodecOk(c) && Agrees(log, edge) && AllPrintable(c, frames) && Covered(log, edge.hw, frames)
    ensures Agrees(log, OnAll(c, edge, SseCut.Seen(ItemsOf(c, frames), k))) <==> !SkipsChange(c, log, frames, k)
    decreases |frames|
  {
    hide CodecOk;
    hide OnEvent;
    hide SseWire.ItemOk;
    hide SseWire.PrintItem;
    hide SseCut.CutEvent;
    hide SseCut.Seen;
    hide SseCut.NameShows;
    hide SseCut.NameWhole;
    hide Agrees;
    hide Changes;
    SeenHead(c, frames, k);
    if frames != [] {
      var f, rest, item := frames[0], frames[1..], ItemOf(c, frames[0]);
      var n := |SseWire.PrintItem(item)|;
      if f.Ping? {
        if k >= n { SeenAgreesIff(c, log, edge, rest, k - n); }
      } else if k < n {
        CutFrameAgreesIff(c, log, edge, f, k);
      } else {
        WholeFrame(c, log, edge, f);
        ReceiveAgrees(log, edge, f);
        var next := Receive(edge, f).value;
        SeenAgreesIff(c, log, next, rest, k - n);
        OnCons(c, edge, SseCut.Whole(item), SseCut.Seen(ItemsOf(c, rest), k - n), next);
      }
    }
  }

  /** What is seen of a stream, frame by frame. */
  lemma SeenHead(c: Codec, frames: seq<Frame>, k: nat)
    requires AllPrintable(c, frames)
    ensures frames == [] ==> SseCut.Seen(ItemsOf(c, frames), k) == []
    ensures frames != [] ==>
              var item, n := ItemOf(c, frames[0]), |SseWire.PrintItem(ItemOf(c, frames[0]))|;
              SseCut.Seen(ItemsOf(c, frames), k) ==
              if k < n then (if frames[0].Ping? then [] else SseCut.ListOf(SseCut.CutEvent(item, k)))
              else if frames[0].Ping? then SseCut.Seen(ItemsOf(c, frames[1..]), k - n)
              else [SseCut.Whole(item)] + SseCut.Seen(ItemsOf(c, frames[1..]), k - n)
  {
    hide SseWire.PrintItem;
    hide SseWire.ItemOk;
    hide SseCut.CutEvent;
    if frames != [] {
      var items := ItemsOf(c, frames);
      assert items[1..] == ItemsOf(c, frames[1..]);
      assert items[0].EventItem? ==> items[0].name != "shutdown";
    }
  }

  lemma OnCons(c: Codec, edge: Edge, e: SseWire.Event, events: seq<SseWire.Event>, next: Edge)
    requires OnEvent(c, edge, e) == Some(next)
    ensures OnAll(c, edge, [e] + events) == OnAll(c, next, events)
  {
    hide OnEvent;
    assert ([e] + events)[1..] == events;
  }

  /**
    An edge in agreement reads an honest stream of score events, cursors and pings that breaks off at any point. It
    still agrees with the log if and only if the cut is not inside the name of a score event that changes the scores.
    There the edge takes the event for an unknown type, moves its high water past it and is never sent it again; a cut
    anywhere else is refused, waits for redelivery, or is harmless.
   */
  lemma StreamCutAgreesIff(c: Codec, log: seq<Event>, edge: Edge, frames: seq<Frame>, k: nat)
    requires CodecOk(c) && Agrees(log, edge) && AllPrintable(c, frames) && Covered(log, edge.hw, frames)
    requires k <= |SseWire.Print(ItemsOf(c, frames))|
    ensures var text := SseWire.Print(ItemsOf(c, frames))[..k];
            Agrees(log, OnAll(c, edge, SseCut.AtEof(SseWire.Idle([]), text).out)) <==>
            !SkipsChange(c, log, frames, k)
  {
    hide CodecOk;
    hide OnAll;
    hide Agrees;
    hide SkipsChange;
    hide SseCut.AtEof;
    hide SseCut.Seen;
    hide SseWire.Print;
    hide SseWire.ItemOk;
    var items := ItemsOf(c, frames);
    SseCut.StreamCut(items, [], k);
    assert [] + SseCut.Seen(items, k) == SseCut.Seen(items, k);
    SeenAgreesIff(c, log, edge, frames, k);
  }
}
