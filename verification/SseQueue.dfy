/**
  The bounded outbound queue of a stream: data frames in order, one control slot ahead of them, socket backpressure.
 */
module SseQueue {
  import opened Text

  datatype Item = Item(frame: Str, cursor: Option<int>)

  datatype Limits = Limits(maxFrames: nat, maxBytes: nat, maxFrameBytes: nat)

  /** What the last write left on the wire. */
  datatype Inflight = Idle | DataFrame | ControlFrame(size: nat)

  /** accepted and written are history: every data frame taken in, and every one handed to the socket. */
  datatype Queue = Queue(data: seq<Item>, dataBytes: int, inflightBytes: int, control: Option<Str>, closed: bool,
                         waiting: bool, lastWritten: Option<int>,
                         accepted: seq<Item>, written: seq<Item>, inflight: Inflight)

  datatype EnqueueResult = Accepted | Oversized | Closed | Full

  /** What the socket answers to a write: room left, buffered until drain, or an error. */
  datatype Write = Room | Buffered | Failed

  function Empty(): Queue {
    Queue([], 0, 0, None, false, false, None, [], [], Idle)
  }

  function Bytes(items: seq<Item>): nat {
    if items == [] then 0 else |items[0].frame| + Bytes(items[1..])
  }

  function Offer(q: Queue, limits: Limits, item: Item): EnqueueResult {
    var size := |item.frame|;
    if q.closed then Closed
    else if size > limits.maxFrameBytes || size > limits.maxBytes then Oversized
    else if |q.data| >= limits.maxFrames || q.dataBytes + q.inflightBytes + size > limits.maxBytes then Full
    else Accepted
  }

  function WithData(q: Queue, limits: Limits, item: Item): Queue {
    if Offer(q, limits, item).Accepted?
    then q.(data := q.data + [item], dataBytes := q.dataBytes + |item.frame|, accepted := q.accepted + [item])
    else q
  }

  function WithControl(q: Queue, frame: Str): Queue {
    if q.closed then q else q.(control := Some(frame))
  }

  function Raise(last: Option<int>, cursor: Option<int>): Option<int> {
    if cursor.Some? && (last.None? || cursor.value > last.value) then cursor else last
  }

  function WriteControl(q: Queue, w: Write): Queue
    requires q.control.Some?
  {
    match w
    case Room => q.(control := None)
    case Buffered => q.(control := None, inflightBytes := q.inflightBytes + |q.control.value|, waiting := true,
                        inflight := ControlFrame(|q.control.value|))
    case Failed => q.(control := None, closed := true)
  }

  function WriteData(q: Queue, w: Write): Queue
    requires q.data != []
  {
    var item := q.data[0];
    var rest := q.(data := q.data[1..], dataBytes := q.dataBytes - |item.frame|);
    match w
    case Failed => rest.(closed := true)
    case Room => rest.(written := q.written + [item], lastWritten := Raise(q.lastWritten, item.cursor))
    case Buffered => rest.(written := q.written + [item], lastWritten := Raise(q.lastWritten, item.cursor),
                           inflightBytes := q.inflightBytes + |item.frame|, waiting := true, inflight := DataFrame)
  }

  /** Frames still to write. */
  function Backlog(q: Queue): nat {
    |q.data| + (if q.control.Some? then 1 else 0)
  }

  /** Writes until nothing is left, the socket buffers, or it fails; socket(k) answers the k-th write. */
  function Pump(q: Queue, socket: nat -> Write, k: nat): Queue
    decreases Backlog(q)
  {
    if q.closed || q.waiting then q
    else if q.control.Some? then Pump(WriteControl(q, socket(k)), socket, k + 1)
    else if q.data == [] then q
    else Pump(WriteData(q, socket(k)), socket, k + 1)
  }

  function Drain(q: Queue): Queue {
    q.(waiting := false, inflightBytes := 0, inflight := Idle)
  }

  function Shut(q: Queue): Queue {
    q.(closed := true)
  }

  // ----- The invariant -----

  function MaxCursor(items: seq<Item>): Option<int> {
    if items == [] then None else Raise(MaxCursor(items[..|items|-1]), items[|items|-1].cursor)
  }

  predicate Inv(limits: Limits, q: Queue) {
    && q.dataBytes == Bytes(q.data) <= limits.maxBytes && |q.data| <= limits.maxFrames
    && (!q.closed ==> q.accepted == q.written + q.data)
    && q.lastWritten == MaxCursor(q.written)
    && q.inflightBytes >= 0
    && (!q.waiting ==> q.inflightBytes == 0)
    && (q.inflightBytes > 0 ==> q.waiting && q.inflight != Idle)
    && (q.inflight == DataFrame ==> q.written != [] && q.inflightBytes == |q.written[|q.written|-1].frame|)
    && (q.inflight.ControlFrame? ==> q.inflightBytes == q.inflight.size)
    && (!q.inflight.ControlFrame? ==> q.dataBytes + q.inflightBytes <= limits.maxBytes)
    && (!q.waiting ==> q.inflight == Idle)
  }

  lemma {:induction false} BytesAppend(items: seq<Item>, item: Item)
    ensures Bytes(items + [item]) == Bytes(items) + |item.frame|
  {
    if items == [] {
      assert items + [item] == [item] && [item][1..] == [];
    } else {
      BytesAppend(items[1..], item);
      assert (items + [item])[1..] == items[1..] + [item];
    }
  }

  lemma EnqueueKeeps(limits: Limits, q: Queue, item: Item)
    requires Inv(limits, q)
    ensures Inv(limits, WithData(q, limits, item))
  {
    BytesAppend(q.data, item);
    assert q.written + (q.data + [item]) == (q.written + q.data) + [item];
  }

  lemma WriteDataKeeps(limits: Limits, q: Queue, w: Write)
    requires Inv(limits, q) && !q.closed && !q.waiting && q.data != []
    ensures Inv(limits, WriteData(q, w))
  {
    var item := q.data[0];
    assert q.written + q.data == (q.written + [item]) + q.data[1..];
    assert (q.written + [item])[..|q.written|] == q.written;
  }

  lemma {:induction false} PumpKeeps(limits: Limits, q: Queue, socket: nat -> Write, k: nat)
    requires Inv(limits, q)
    ensures Inv(limits, Pump(q, socket, k))
    decreases Backlog(q)
  {
    hide Bytes;
    hide MaxCursor;
    if !(q.closed || q.waiting) {
      if q.control.Some? {
        PumpKeeps(limits, WriteControl(q, socket(k)), socket, k + 1);
      } else if q.data != [] {
        WriteDataKeeps(limits, q, socket(k));
        PumpKeeps(limits, WriteData(q, socket(k)), socket, k + 1);
      }
    }
  }

  lemma PumpStep(q: Queue, socket: nat -> Write, k: nat)
    requires !q.closed && !q.waiting
    ensures q.control.Some? ==> Pump(q, socket, k) == Pump(WriteControl(q, socket(k)), socket, k + 1)
    ensures q.control.Some? ==> Backlog(WriteControl(q, socket(k))) < Backlog(q)
    ensures q.control.None? && q.data != [] ==> Pump(q, socket, k) == Pump(WriteData(q, socket(k)), socket, k + 1)
    ensures q.control.None? && q.data != [] ==> Backlog(WriteData(q, socket(k))) < Backlog(q)
  {
  }

  lemma PumpStops(q: Queue, socket: nat -> Write, k: nat)
    requires q.closed || q.waiting || (q.control.None? && q.data == [])
    ensures Pump(q, socket, k) == q
  {
  }

  // ----- The queue object -----

  class SseWriteQueue {
    const limits: Limits
    var data: seq<Item>
    var dataBytes: int
    var inflightBytes: int
    var control: Option<Str>
    var closed: bool
    var waitingForDrain: bool
    var lastWrittenCursor: Option<int>
    ghost var accepted: seq<Item>
    ghost var written: seq<Item>
    ghost var inflight: Inflight

    ghost function State(): Queue
      reads this
    {
      Queue(data, dataBytes, inflightBytes, control, closed, waitingForDrain, lastWrittenCursor, accepted, written,
            inflight)
    }

    /**
      Bounded FIFO: accepted is written followed by data until close, and the counters are exact and within the caps.
     */
    ghost predicate Valid()
      reads this
    {
      Inv(limits, State())
    }

    constructor (limits: Limits)
      ensures Valid() && this.limits == limits && State() == Empty()
    {
      this.limits := limits;
      data, dataBytes, inflightBytes, control := [], 0, 0, None;
      closed, waitingForDrain, lastWrittenCursor := false, false, None;
      accepted, written, inflight := [], [], Idle;
    }

    /** Takes the frame as the newest, or leaves everything as it was and says why. */
    method EnqueueData(item: Item) returns (r: EnqueueResult)
      requires Valid()
      modifies this
      ensures Valid()
      ensures State() == WithData(old(State()), limits, item)
      ensures r.Accepted? ==> accepted == old(accepted) + [item] == written + data && data == old(data) + [item]
      ensures !r.Accepted? ==> State() == old(State())
      ensures r.Closed? <==> closed
      ensures r.Oversized? <==> !closed && (|item.frame| > limits.maxFrameBytes || |item.frame| > limits.maxBytes)
      ensures r.Full? <==>
              && !old(closed) && |item.frame| <= limits.maxFrameBytes && |item.frame| <= limits.maxBytes
              && (|old(data)| == limits.maxFrames
                  || Bytes(old(data)) + old(inflightBytes) + |item.frame| > limits.maxBytes)
    {
      EnqueueKeeps(limits, State(), item);
      if closed { return Closed; }
      var size := |item.frame|;
      if size > limits.maxFrameBytes || size > limits.maxBytes { return Oversized; }
      if |data| >= limits.maxFrames || dataBytes + inflightBytes + size > limits.maxBytes { return Full; }
      data, dataBytes, accepted := data + [item], dataBytes + size, accepted + [item];
      return Accepted;
    }

    method EnqueueControl(frame: Str) returns (r: EnqueueResult)
      requires Valid()
      modifies this
      ensures Valid()
      ensures State() == WithControl(old(State()), frame)
    {
      if closed { return Closed; }
      control := Some(frame);
      return Accepted;
    }

    /** Writes the control frame; the socket gives the answer. */
    method WriteControlFrame(answer: Write)
      requires control.Some?
      modifies this
      ensures State() == WriteControl(old(State()), answer)
    {
      var next := control.value;
      control := None;
      if answer.Failed? {
        closed := true;
      } else if answer.Buffered? {
        inflightBytes, waitingForDrain, inflight := inflightBytes + |next|, true, ControlFrame(|next|);
      }
    }

    /** Writes the oldest data frame; its cursor counts as written unless the write failed. */
    method WriteDataFrame(answer: Write)
      requires data != []
      modifies this
      ensures State() == WriteData(old(State()), answer)
    {
      var item := data[0];
      data, dataBytes := data[1..], dataBytes - |item.frame|;
      if answer.Failed? {
        closed := true;
        return;
      }
      written, lastWrittenCursor := written + [item], Raise(lastWrittenCursor, item.cursor);
      if answer.Buffered? {
        inflightBytes, waitingForDrain, inflight := inflightBytes + |item.frame|, true, DataFrame;
      }
    }

    /** The pump loop. It leaves nothing writable behind, so the restart after it never has work to do. */
    method RunPump(socket: nat -> Write)
      requires Valid()
      modifies this
      ensures Valid()
      ensures State() == Pump(old(State()), socket, 0)
      ensures closed || waitingForDrain || (control.None? && data == [])
    {
      hide Inv;
      hide WriteControl;
      hide WriteData;
      hide Pump;
      hide Backlog;
      PumpKeeps(limits, State(), socket, 0);
      var k := 0;
      while !closed && !waitingForDrain
        invariant k >= 0
        invariant Pump(State(), socket, k) == Pump(old(State()), socket, 0)
        decreases Backlog(State())
      {
        PumpStep(State(), socket, k);
        if control.Some? {
          WriteControlFrame(socket(k));
        } else {
          if |data| == 0 { break; }
          WriteDataFrame(socket(k));
        }
        k := k + 1;
      }
      PumpStops(State(), socket, k);
    }

    method OnDrain()
      requires Valid()
      modifies this
      ensures Valid()
      ensures State() == Drain(old(State()))
    {
      waitingForDrain, inflightBytes, inflight := false, 0, Idle;
    }

    method Close()
      requires Valid()
      modifies this
      ensures Valid()
      ensures State() == Shut(old(State()))
    {
      if closed { return; }
      closed := true;
    }
  }

  // ----- Every interleaving -----

  datatype Op = OfferData(item: Item) | OfferControl(frame: Str) | PumpNow(socket: nat -> Write) | DrainNow | CloseNow

  function Apply(limits: Limits, q: Queue, op: Op): Queue {
    match op
    case OfferData(item) => WithData(q, limits, item)
    case OfferControl(frame) => WithControl(q, frame)
    case PumpNow(socket) => Pump(q, socket, 0)
    case DrainNow => Drain(q)
    case CloseNow => Shut(q)
  }

  function Run(limits: Limits, ops: seq<Op>): Queue {
    if ops == [] then Empty() else Apply(limits, Run(limits, ops[..|ops|-1]), ops[|ops|-1])
  }

  /**
    Bounded FIFO in every interleaving: until close the accepted frames are the written ones followed by the queued
    ones, and the counters are exact and within both caps.
   */
  lemma {:induction false} RunKeeps(limits: Limits, ops: seq<Op>)
    ensures Inv(limits, Run(limits, ops))
  {
    hide Pump;
    hide WithData;
    if ops != [] {
      var before, op := Run(limits, ops[..|ops|-1]), ops[|ops|-1];
      RunKeeps(limits, ops[..|ops|-1]);
      match op
      case OfferData(item) => EnqueueKeeps(limits, before, item);
      case OfferControl(_) =>
      case PumpNow(socket) => PumpKeeps(limits, before, socket, 0);
      case DrainNow =>
      case CloseNow =>
    }
  }

  predicate NotBelow(last: Option<int>, cursor: Option<int>) {
    last.Some? && cursor.Some? ==> last.value <= cursor.value
  }

  /** The written cursor never falls. */
  lemma {:induction false} WrittenCursorRises(limits: Limits, ops: seq<Op>, op: Op)
    ensures var before, after := Run(limits, ops).lastWritten, Run(limits, ops + [op]).lastWritten;
            NotBelow(before, after) && (before.Some? ==> after.Some?)
  {
    assert (ops + [op])[..|ops|] == ops;
    if op.PumpNow? { PumpRaises(Run(limits, ops), op.socket, 0); }
  }

  lemma {:induction false} PumpRaises(q: Queue, socket: nat -> Write, k: nat)
    ensures NotBelow(q.lastWritten, Pump(q, socket, k).lastWritten)
    ensures q.lastWritten.Some? ==> Pump(q, socket, k).lastWritten.Some?
    decreases Backlog(q)
  {
    if !(q.closed || q.waiting) {
      if q.control.Some? {
        PumpRaises(WriteControl(q, socket(k)), socket, k + 1);
      } else if q.data != [] {
        PumpRaises(WriteData(q, socket(k)), socket, k + 1);
      }
    }
  }

  /** Cursors taken in were in order. */
  predicate InOrder(items: seq<Item>) {
    forall i, j :: 0 <= i < j < |items| ==> NotBelow(items[i].cursor, items[j].cursor)
  }

  lemma {:induction false} MaxCursorBelow(items: seq<Item>, cursor: Option<int>)
    requires forall i :: 0 <= i < |items| ==> NotBelow(items[i].cursor, cursor)
    ensures NotBelow(MaxCursor(items), cursor)
  {
    if items != [] { MaxCursorBelow(items[..|items|-1], cursor); }
  }

  /**
    When cursors come in order, the written cursor never passes a frame still queued, so resuming from it loses
    nothing.
   */
  lemma WrittenCursorSafe(limits: Limits, ops: seq<Op>, i: nat)
    requires var q := Run(limits, ops); !q.closed && InOrder(q.accepted) && i < |q.data|
    ensures NotBelow(Run(limits, ops).lastWritten, Run(limits, ops).data[i].cursor)
  {
    RunKeeps(limits, ops);
    var q := Run(limits, ops);
    assert q.data[i] == q.accepted[|q.written| + i];
    forall k | 0 <= k < |q.written| ensures NotBelow(q.written[k].cursor, q.data[i].cursor) {
      assert q.written[k] == q.accepted[k];
    }
    MaxCursorBelow(q.written, q.data[i].cursor);
  }

  lemma {:induction false} MaxCursorIsMax(items: seq<Item>)
    ensures forall i :: 0 <= i < |items| && items[i].cursor.Some? ==>
            MaxCursor(items).Some? && items[i].cursor.value <= MaxCursor(items).value
    ensures MaxCursor(items).Some? ==> exists i :: 0 <= i < |items| && items[i].cursor == MaxCursor(items)
  {
    if items != [] {
      var last := |items| - 1;
      MaxCursorIsMax(items[..last]);
      assert forall i :: 0 <= i < last ==> items[..last][i] == items[i];
      if MaxCursor(items).Some? && MaxCursor(items) != items[last].cursor {
        var i :| 0 <= i < last && items[..last][i].cursor == MaxCursor(items[..last]);
        assert items[i].cursor == MaxCursor(items);
      }
    }
  }

  /** The written cursor is the largest cursor among the written frames. */
  lemma WrittenCursorIsMax(limits: Limits, ops: seq<Op>)
    ensures var q := Run(limits, ops);
            && (forall i :: 0 <= i < |q.written| && q.written[i].cursor.Some? ==>
                q.lastWritten.Some? && q.written[i].cursor.value <= q.lastWritten.value)
            && (q.lastWritten.Some? ==> exists i :: 0 <= i < |q.written| && q.written[i].cursor == q.lastWritten)
  {
    RunKeeps(limits, ops);
    MaxCursorIsMax(Run(limits, ops).written);
  }

  // ----- Progress -----

  lemma WrittenRegroup(written: seq<Item>, data: seq<Item>, m: nat)
    requires 1 <= m < |data|
    ensures (written + [data[0]]) + data[1..][..m] == written + data[..m+1]
  {
    assert data[..m+1] == [data[0]] + data[1..][..m];
  }

  /**
    The pump hands data frames to the socket in order for as long as the socket has room. The frame the socket buffers
    counts as written and stops the pump until a drain; the frame on which it fails is dropped and closes the queue.
   */
  lemma {:induction false} PumpWrites(q: Queue, socket: nat -> Write, k: nat, m: nat)
    requires !q.closed && !q.waiting && q.control.None? && m < |q.data|
    requires (forall i: nat :: k <= i < k + m ==> socket(i) == Room) && socket(k + m) != Room
    ensures var after := Pump(q, socket, k);
            && after.control.None? && after.accepted == q.accepted && after.data == q.data[m+1..]
            && (socket(k + m) == Buffered ==>
                && after.waiting && !after.closed && after.written == q.written + q.data[..m+1]
                && after.inflightBytes == q.inflightBytes + |q.data[m].frame|)
            && (socket(k + m) == Failed ==> after.closed && after.written == q.written + q.data[..m])
    decreases m
  {
    var next := WriteData(q, socket(k));
    assert Pump(q, socket, k) == Pump(next, socket, k + 1);
    if m == 0 {
      PumpStops(next, socket, k + 1);
      assert q.data[..1] == [q.data[0]] && q.data[..0] == [] && q.written + [] == q.written;
    } else {
      hide Pump;
      PumpWrites(next, socket, k + 1, m - 1);
      WrittenRegroup(q.written, q.data, m);
      if m > 1 { WrittenRegroup(q.written, q.data, m - 1); }
      assert q.data[1..][m..] == q.data[m+1..];
      assert q.data[..1] == [q.data[0]];
      assert q.written + q.data[..1] == q.written + [q.data[0]] == q.written + [q.data[0]] + q.data[1..][..0];
    }
  }

  lemma {:induction false} PumpRoom(q: Queue, socket: nat -> Write, k: nat)
    requires !q.closed && !q.waiting && forall i :: socket(i) == Room
    ensures var after := Pump(q, socket, k);
            && !after.closed && !after.waiting && after.control.None? && after.data == []
            && after.written == q.written + q.data && after.accepted == q.accepted
    decreases Backlog(q)
  {
    PumpStep(q, socket, k);
    hide Pump;
    if q.control.Some? {
      PumpRoom(WriteControl(q, socket(k)), socket, k + 1);
    } else if q.data != [] {
      PumpRoom(WriteData(q, socket(k)), socket, k + 1);
      assert (q.written + [q.data[0]]) + q.data[1..] == q.written + q.data;
    } else {
      PumpStops(q, socket, k);
    }
  }

  /**
    Nothing is stuck: in every reachable open queue, full or waiting as it may be, a drain and a pump on a socket with
    room write every frame ever accepted, in the order accepted, and the control frame.
   */
  lemma DrainResumes(limits: Limits, ops: seq<Op>, socket: nat -> Write)
    requires !Run(limits, ops).closed && forall i :: socket(i) == Room
    ensures var q, after := Run(limits, ops), Run(limits, ops + [DrainNow] + [PumpNow(socket)]);
            after.written == q.accepted && after.data == [] && after.control.None? && !after.waiting && !after.closed
  {
    hide Pump;
    RunKeeps(limits, ops);
    var drained := ops + [DrainNow];
    assert drained[..|ops|] == ops && (drained + [PumpNow(socket)])[..|drained|] == drained;
    assert Run(limits, drained) == Drain(Run(limits, ops));
    assert Run(limits, drained + [PumpNow(socket)]) == Pump(Run(limits, drained), socket, 0);
    PumpRoom(Drain(Run(limits, ops)), socket, 0);
  }

  /** A closed queue takes in and writes nothing more, whatever is done to it. */
  lemma {:induction false} ClosedForGood(limits: Limits, ops: seq<Op>, more: seq<Op>)
    ensures var q := Run(limits, ops + [CloseNow] + more);
            q.closed && q.accepted == Run(limits, ops).accepted && q.written == Run(limits, ops).written
  {
    var all := ops + [CloseNow] + more;
    if more == [] {
      assert all == ops + [CloseNow] && all[..|all|-1] == ops;
    } else {
      var last := |more| - 1;
      ClosedForGood(limits, ops, more[..last]);
      assert all[..|all|-1] == ops + [CloseNow] + more[..last] && all[|all|-1] == more[last];
    }
  }

  // ----- The control lane and the byte cap -----

  /** Bytes counted against the cap: queued data and what the socket still holds. */
  function Held(q: Queue): int {
    q.dataBytes + q.inflightBytes
  }

  /** In every reachable state the cap is exceeded at most by the one control frame in flight. */
  lemma HeldWithinCapAndControl(limits: Limits, ops: seq<Op>)
    ensures var q := Run(limits, ops);
            0 <= Held(q) <= limits.maxBytes + (if q.inflight.ControlFrame? then q.inflight.size else 0)
  {
    RunKeeps(limits, ops);
  }

  /**
    The cap does not cover the control lane: when the socket buffers a control frame, the bytes held stay within the cap
    if and only if the frame fitted beside the data queued when the pump began.
   */
  lemma ControlWithinCapIff(limits: Limits, ops: seq<Op>, socket: nat -> Write)
    requires var q := Run(limits, ops); !q.closed && !q.waiting && q.control.Some?
    requires socket(0) == Buffered
    ensures var q, after := Run(limits, ops), Run(limits, ops + [PumpNow(socket)]);
            && after.waiting && after.inflight == ControlFrame(|q.control.value|) && after.data == q.data
            && (Held(after) <= limits.maxBytes <==> q.dataBytes + |q.control.value| <= limits.maxBytes)
  {
    RunKeeps(limits, ops);
    var q := Run(limits, ops);
    assert (ops + [PumpNow(socket)])[..|ops|] == ops;
    var buffered := WriteControl(q, Buffered);
    assert Pump(q, socket, 0) == Pump(buffered, socket, 1) == buffered;
  }

  /** A short control frame behind one accepted data frame that nearly fills the cap takes the bytes held past it. */
  lemma ControlExceedsCap(limits: Limits, item: Item, frame: Str)
    requires limits.maxFrames > 0 && |item.frame| <= limits.maxFrameBytes
    requires |item.frame| <= limits.maxBytes < |item.frame| + |frame|
    ensures var q := Run(limits, [OfferData(item), OfferControl(frame), PumpNow((k: nat) => Buffered)]);
            q.accepted == q.data == [item] && Held(q) == |item.frame| + |frame| > limits.maxBytes
  {
    var ops, socket := [OfferData(item), OfferControl(frame)], (k: nat) => Buffered;
    assert ops[..1] == [OfferData(item)] && [OfferData(item)][..0] == [];
    assert Run(limits, []) == Empty();
    var first := Run(limits, [OfferData(item)]);
    assert first == WithData(Empty(), limits, item);
    assert [] + [item] == [item] && [item][1..] == [];
    assert Run(limits, ops) == WithControl(first, frame);
    ControlWithinCapIff(limits, ops, socket);
    assert ops + [PumpNow(socket)] == [OfferData(item), OfferControl(frame), PumpNow(socket)];
    assert (ops + [PumpNow(socket)])[..2] == ops;
    var q := Run(limits, ops);
    var buffered := WriteControl(q, Buffered);
    assert Pump(q, socket, 0) == Pump(buffered, socket, 1) == buffered;
  }
}
