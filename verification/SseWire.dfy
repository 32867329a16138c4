/** The wire form of a stream: the server's frame printer and the edge's line reader (server-sent events). */
module SseWire {
  import opened Text

  const MAX_LINE_BYTES := 0x4_0000
  const MAX_EVENT_BYTES := 0x10_0000

  /** What the server prints: an event with an optional id, a comment, or the opening retry line. */
  datatype Item = EventItem(name: string, id: Option<nat>, data: string) | Comment(text: string) | Retry(ms: nat)

  /** What the reader hands on: event name, id text and joined data. */
  datatype Event = Event(name: string, id: string, data: string)

  // ----- Numbers -----

  function Digit(d: nat): char
    requires d < 10
  {
    '0' + d as char
  }

  function Decimal(n: nat): string {
    if n < 10 then [Digit(n)] else Decimal(n / 10) + [Digit(n % 10)]
  }

  predicate IsDigit(c: char) {
    '0' <= c <= '9'
  }

  function ParseDigits(s: string): Option<nat> {
    if s == "" then Some(0)
    else if !IsDigit(s[|s|-1]) then None
    else match ParseDigits(s[..|s|-1])
      case None => None
      case Some(n) => Some(10 * n + (s[|s|-1] - '0') as nat)
  }

  /** strconv.ParseInt in base 10 with 64 bits, on an unsigned text. */
  function ParseId(s: string): Option<nat> {
    if s == "" then None
    else match ParseDigits(s)
      case None => None
      case Some(n) => if n <= 0x7fff_ffff_ffff_ffff then Some(n) else None
  }

  lemma ParseNext(s: string, n: nat, d: nat)
    requires d < 10 && ParseDigits(s) == Some(n)
    ensures IsDigit(Digit(d)) && ParseDigits(s + [Digit(d)]) == Some(10 * n + d)
  {
    assert (s + [Digit(d)])[..|s|] == s;
  }

  lemma {:induction false} DecimalDigits(n: nat)
    ensures Decimal(n) != "" && forall i :: 0 <= i < |Decimal(n)| ==> IsDigit(Decimal(n)[i])
    ensures ParseDigits(Decimal(n)) == Some(n)
  {
    var q, d := n / 10, n % 10;
    assert n == 10 * q + d;
    if n < 10 {
      ParseNext("", 0, n);
      assert "" + [Digit(n)] == [Digit(n)];
    } else {
      assert Decimal(n) == Decimal(q) + [Digit(d)];
      DecimalDigits(q);
      hide ParseDigits;
      hide Digit;
      hide IsDigit;
      ParseNext(Decimal(q), q, d);
    }
  }

  /** Every version the database can hold survives printing and parsing. */
  lemma IdRoundTrip(n: nat)
    requires n <= 0x7fff_ffff_ffff_ffff
    ensures ParseId(Decimal(n)) == Some(n)
  {
    DecimalDigits(n);
  }

  // ----- Sizes -----

  /** Bytes of a character in UTF-8; the reader's limits count bytes. */
  function Utf8Bytes(c: char): nat {
    if c as int < 0x80 then 1 else if c as int < 0x800 then 2 else if c as int < 0x1_0000 then 3 else 4
  }

  function ByteLen(s: string): nat {
    if s == "" then 0 else ByteLen(s[..|s|-1]) + Utf8Bytes(s[|s|-1])
  }

  lemma {:induction false} ByteLenConcat(a: string, b: string)
    ensures ByteLen(a + b) == ByteLen(a) + ByteLen(b)
  {
    if b == "" {
      assert a + b == a;
    } else {
      ByteLenConcat(a, b[..|b|-1]);
      assert (a + b)[..|a + b|-1] == a + b[..|b|-1];
    }
  }

  lemma {:induction false} ByteLenAscii(s: string)
    requires forall i :: 0 <= i < |s| ==> s[i] as int < 0x80
    ensures ByteLen(s) == |s|
  {
    if s != "" { ByteLenAscii(s[..|s|-1]); }
  }

  // ----- Printing -----

  function PrintItem(item: Item): string {
    match item
    case EventItem(name, id, data) =>
      (if id.Some? then "id: " + Decimal(id.value) + "\n" else "") +
      (if name != "" then "event: " + name + "\n" else "") + "data: " + data + "\n\n"
    case Comment(text) => ": " + text + "\n\n"
    case Retry(ms) => "retry: " + Decimal(ms) + "\n\n"
  }

  function Print(items: seq<Item>): string {
    if items == [] then "" else PrintItem(items[0]) + Print(items[1..])
  }

  // ----- Reading -----

  predicate IsSpace(c: char) {
    c == ' ' || c == '\t' || c == '\n' || c == '\r' || c as int == 11 || c as int == 12 ||
    c as int == 0x85 || c as int == 0xA0 || c as int == 0x1680 || 0x2000 <= c as int <= 0x200A ||
    c as int == 0x2028 || c as int == 0x2029 || c as int == 0x202F || c as int == 0x205F || c as int == 0x3000
  }

  function TrimStart(s: string): string {
    if s != "" && IsSpace(s[0]) then TrimStart(s[1..]) else s
  }

  function TrimEnd(s: string): string {
    if s != "" && IsSpace(s[|s|-1]) then TrimEnd(s[..|s|-1]) else s
  }

  function TrimSpace(s: string): string {
    TrimEnd(TrimStart(s))
  }

  /** Trailing carriage returns and newlines go. */
  function Chomp(s: string): string {
    if s != "" && (s[|s|-1] == '\r' || s[|s|-1] == '\n') then Chomp(s[..|s|-1]) else s
  }

  predicate HasPrefix(s: string, p: string) {
    |p| <= |s| && s[..|p|] == p
  }

  function Join(lines: seq<string>): string {
    if lines == [] then "" else if |lines| == 1 then lines[0] else Join(lines[..|lines|-1]) + "\n" + lines[|lines|-1]
  }

  /** The frame being assembled, what was handed on so far, and whether the session ended with shutdown or an error. */
  datatype Reader = Reader(name: string, id: string, data: seq<string>, dataBytes: nat, out: seq<Event>, done: bool,
                           failed: bool)

  function Start(): Reader {
    Reader("", "", [], 0, [], false, false)
  }

  function Flush(r: Reader): Reader {
    if r.name == "" then Reader("", "", [], 0, r.out, r.done, r.failed)
    else Reader("", "", [], 0, r.out + [Event(r.name, r.id, Join(r.data))], r.done || r.name == "shutdown", r.failed)
  }

  function Dispatch(r: Reader, line: string): Reader {
    if line == "" then Flush(r)
    else if HasPrefix(line, ":") || HasPrefix(line, "retry:") then r
    else if HasPrefix(line, "event:") then r.(name := TrimSpace(line[6..]))
    else if HasPrefix(line, "id:") then r.(id := TrimSpace(line[3..]))
    else if HasPrefix(line, "data:") then
      var payload := TrimSpace(line[5..]);
      if r.dataBytes + ByteLen(payload) + 1 > MAX_EVENT_BYTES then r.(failed := true)
      else r.(data := r.data + [payload], dataBytes := r.dataBytes + ByteLen(payload) + 1)
    else r
  }

  /** Index of the first newline, or the length. */
  function LineEnd(s: string): (k: nat)
    ensures k <= |s| && (forall i :: 0 <= i < k ==> s[i] != '\n') && (k < |s| ==> s[k] == '\n')
  {
    if s == "" || s[0] == '\n' then 0 else 1 + LineEnd(s[1..])
  }

  /** Reads whole lines until the session ends; an overlong line ends it. */
  function Feed(r: Reader, text: string): Reader
    decreases |text|
  {
    var k := LineEnd(text);
    if r.done || r.failed || k == |text| then r
    else if ByteLen(text[..k+1]) > MAX_LINE_BYTES then r.(failed := true)
    else Feed(Dispatch(r, Chomp(text[..k+1])), text[k+1..])
  }

  /** The frame object the session reads into. */
  class SseFrame {
    var eventName: string
    var idStr: string
    var dataLines: seq<string>
    var dataBytes: nat
    ghost var out: seq<Event>
    ghost var done: bool
    ghost var failed: bool

    ghost function State(): Reader
      reads this
    {
      Reader(eventName, idStr, dataLines, dataBytes, out, done, failed)
    }

    constructor ()
      ensures State() == Start()
    {
      eventName, idStr, dataLines, dataBytes := "", "", [], 0;
      out, done, failed := [], false, false;
    }

    method Reset()
      modifies this`eventName, this`idStr, this`dataLines, this`dataBytes
      ensures eventName == "" && idStr == "" && dataLines == [] && dataBytes == 0
    {
      eventName, idStr, dataLines, dataBytes := "", "", [], 0;
    }

    method FlushFrame() returns (event: Option<Event>)
      modifies this
      ensures State() == Flush(old(State()))
      ensures event.Some? <==> old(eventName) != ""
      ensures event.Some? ==> out == old(out) + [event.value]
    {
      var data := "";
      for i := 0 to |dataLines|
        invariant data == Join(dataLines[..i])
        invariant State() == old(State())
      {
        assert dataLines[..i+1][..i] == dataLines[..i];
        data := if i == 0 then dataLines[0] else data + "\n" + dataLines[i];
      }
      assert dataLines[..|dataLines|] == dataLines;
      if eventName == "" {
        Reset();
        return None;
      }
      var e := Event(eventName, idStr, data);
      out, done := out + [e], done || eventName == "shutdown";
      Reset();
      return Some(e);
    }

    method DispatchLine(line: string)
      modifies this
      ensures State() == Dispatch(old(State()), line)
    {
      if line == "" {
        var _ := FlushFrame();
        return;
      }
      if HasPrefix(line, ":") { return; }
      if HasPrefix(line, "retry:") { return; }
      if HasPrefix(line, "event:") {
        eventName := TrimSpace(line[6..]);
        return;
      }
      if HasPrefix(line, "id:") {
        idStr := TrimSpace(line[3..]);
        return;
      }
      if HasPrefix(line, "data:") {
        var payload := TrimSpace(line[5..]);
        var next := dataBytes + ByteLen(payload) + 1;
        if next > MAX_EVENT_BYTES {
          failed := true;
          return;
        }
        dataLines, dataBytes := dataLines + [payload], next;
      }
    }
  }

  // ----- Round trip -----

  /** One line, with nothing for trimming to remove. */
  predicate Plain(s: string) {
    '\n' !in s && (s != "" ==> !IsSpace(s[0]) && !IsSpace(s[|s|-1]))
  }

  predicate ItemOk(item: Item) {
    match item
    case EventItem(name, id, data) =>
      && name != "" && Plain(name) && Plain(data)
      && ByteLen(name) + 8 <= MAX_LINE_BYTES && ByteLen(data) + 7 <= MAX_LINE_BYTES
      && (id.Some? ==> id.value <= 0x7fff_ffff_ffff_ffff)
    case Comment(text) => '\n' !in text && ByteLen(text) + 3 <= MAX_LINE_BYTES
    case Retry(ms) => ms <= 0x7fff_ffff_ffff_ffff
  }

  function IdText(id: Option<nat>): string {
    if id.None? then "" else Decimal(id.value)
  }

  /** What a whole stream must hand on: its events in order, up to and including a shutdown. */
  function Expected(items: seq<Item>): seq<Event> {
    if items == [] then []
    else if items[0].EventItem? then
      [Event(items[0].name, IdText(items[0].id), items[0].data)] +
      (if items[0].name == "shutdown" then [] else Expected(items[1..]))
    else Expected(items[1..])
  }

  lemma TrimPlain(s: string)
    requires Plain(s)
    ensures TrimSpace(" " + s) == s
  {
    assert (" " + s)[1..] == s;
    assert TrimStart(" " + s) == TrimStart(s) == s;
  }

  lemma {:induction false} LineEndAt(line: string, rest: string)
    requires '\n' !in line
    ensures LineEnd(line + "\n" + rest) == |line|
  {
    var text := line + "\n" + rest;
    assert text[|line|] == '\n';
    forall i | 0 <= i < |line| ensures text[i] != '\n' { assert text[i] == line[i] && line[i] in line; }
  }

  lemma LineBytes(line: string)
    ensures ByteLen(line + "\n") == ByteLen(line) + 1
  {
    ByteLenConcat(line, "\n");
    ByteLenAscii("\n");
  }

  /** A line that ends in neither carriage return nor newline is dispatched as it stands. */
  lemma FeedLine(r: Reader, line: string, rest: string)
    requires !r.done && !r.failed && '\n' !in line && ByteLen(line) + 1 <= MAX_LINE_BYTES
    requires line != "" ==> line[|line|-1] != '\r'
    ensures Feed(r, line + "\n" + rest) == Feed(Dispatch(r, line), rest)
  {
    var text := line + "\n" + rest;
    LineEndAt(line, rest);
    assert text[..|line|+1] == line + "\n" && text[|line|+1..] == rest;
    assert (line + "\n")[..|line|] == line;
    LineBytes(line);
    assert line != "" ==> line[|line|-1] != '\n' by { if line != "" { assert line[|line|-1] in line; } }
    assert Chomp(line + "\n") == Chomp(line) == line;
  }

  function Idle(out: seq<Event>): Reader {
    Reader("", "", [], 0, out, false, false)
  }

  lemma {:induction false} DecimalLength(n: nat, k: nat)
    requires k > 0 && n < Pow10(k)
    ensures |Decimal(n)| <= k
  {
    if n >= 10 { DecimalLength(n / 10, k - 1); }
  }

  function Pow10(k: nat): nat {
    if k == 0 then 1 else 10 * Pow10(k - 1)
  }

  lemma IdIsPlain(n: nat)
    requires n <= 0x7fff_ffff_ffff_ffff
    ensures forall i :: 0 <= i < |Decimal(n)| ==> IsDigit(Decimal(n)[i])
    ensures Plain(Decimal(n)) && |Decimal(n)| <= 20 && Decimal(n)[|Decimal(n)|-1] != '\r' && Decimal(n) != ""
  {
    DecimalDigits(n);
    assert Pow10(5) == 100000;
    assert Pow10(10) == 10000000000;
    assert Pow10(15) == 1000000000000000;
    assert Pow10(20) == 100000000000000000000;
    DecimalLength(n, 20);
  }

  lemma IdLineBytes(n: nat)
    requires n <= 0x7fff_ffff_ffff_ffff
    ensures ByteLen("id: " + Decimal(n)) <= 24
  {
    hide Decimal;
    hide ByteLen;
    IdIsPlain(n);
    ByteLenAscii("id: " + Decimal(n));
  }

  lemma DispatchId(r: Reader, n: nat)
    requires n <= 0x7fff_ffff_ffff_ffff
    ensures var line := "id: " + Decimal(n);
            && Dispatch(r, line) == r.(id := Decimal(n)) && ByteLen(line) <= 24
            && '\n' !in line && line[|line|-1] != '\r' && line[|line|-1] != '\n'
  {
    hide Decimal;
    hide ByteLen;
    hide IsSpace;
    hide TrimSpace;
    IdIsPlain(n);
    IdLineBytes(n);
    TrimPlain(Decimal(n));
    var line := "id: " + Decimal(n);
    assert line[3..] == " " + Decimal(n) && line[..3] == "id:" && line[..1] == "i";
    assert line[|line|-1] == Decimal(n)[|Decimal(n)|-1] && Decimal(n)[|Decimal(n)|-1] in Decimal(n);
  }

  lemma DispatchName(r: Reader, name: string)
    requires name != "" && Plain(name)
    ensures var line := "event: " + name;
            && Dispatch(r, line) == r.(name := name)
            && '\n' !in line && line[|line|-1] != '\r' && line[|line|-1] != '\n'
  {
    hide ByteLen;
    assert name[|name|-1] != '\r';
    hide IsSpace;
    var line := "event: " + name;
    assert line[6..] == " " + name && line[..6] == "event:" && line[..1] == "e";
    assert line[|line|-1] == name[|name|-1] && name[|name|-1] in name;
    TrimPlain(name);
  }

  lemma HeadBytes(head: string, s: string)
    requires forall i :: 0 <= i < |head| ==> head[i] as int < 0x80
    ensures ByteLen(head + s) == |head| + ByteLen(s)
  {
    ByteLenConcat(head, s);
    ByteLenAscii(head);
  }

  lemma FeedId(out: seq<Event>, n: nat, rest: string)
    requires n <= 0x7fff_ffff_ffff_ffff
    ensures Feed(Idle(out), "id: " + Decimal(n) + "\n" + rest) == Feed(Idle(out).(id := Decimal(n)), rest)
  {
    hide Decimal;
    hide Dispatch;
    DispatchId(Idle(out), n);
    FeedLine(Idle(out), "id: " + Decimal(n), rest);
  }

  lemma FeedName(r: Reader, name: string, rest: string)
    requires !r.done && !r.failed && name != "" && Plain(name) && ByteLen(name) + 8 <= MAX_LINE_BYTES
    ensures Feed(r, "event: " + name + "\n" + rest) == Feed(r.(name := name), rest)
  {
    hide Dispatch;
    hide ByteLen;
    DispatchName(r, name);
    HeadBytes("event: ", name);
    FeedLine(r, "event: " + name, rest);
  }

  lemma DispatchData(r: Reader, data: string)
    requires r.data == [] && r.dataBytes == 0 && Plain(data) && ByteLen(data) + 7 <= MAX_LINE_BYTES
    ensures var line := "data: " + data;
            && Dispatch(r, line) == r.(data := [data], dataBytes := ByteLen(data) + 1)
            && '\n' !in line && line[|line|-1] != '\r'
  {
    hide ByteLen;
    assert data != "" ==> data[|data|-1] != '\r';
    hide IsSpace;
    var line := "data: " + data;
    assert line[5..] == " " + data && line[..5] == "data:" && line[..1] == "d" && line[..3] == "dat" &&
      line[..6] == "data: ";
    assert data != "" ==> line[|line|-1] == data[|data|-1];
    TrimPlain(data);
    assert [] + [data] == [data];
  }

  lemma FeedData(r: Reader, data: string, rest: string)
    requires !r.done && !r.failed && r.data == [] && r.dataBytes == 0 && Plain(data) &&
             ByteLen(data) + 7 <= MAX_LINE_BYTES
    ensures Feed(r, "data: " + data + "\n" + rest) == Feed(r.(data := [data], dataBytes := ByteLen(data) + 1), rest)
  {
    hide Dispatch;
    hide ByteLen;
    hide Plain;
    DispatchData(r, data);
    HeadBytes("data: ", data);
    FeedLine(r, "data: " + data, rest);
  }

  lemma FeedBlank(r: Reader, rest: string)
    requires !r.done && !r.failed
    ensures Feed(r, "\n" + rest) == Feed(Flush(r), rest)
  {
    assert "" + "\n" + rest == "\n" + rest;
    FeedLine(r, "", rest);
  }

  /** A line of more than 256 KiB, its newline included, ends the session: nothing of it or after it is handed on. */
  lemma OverlongLineEnds(r: Reader, line: string, rest: string)
    requires !r.done && !r.failed && '\n' !in line && ByteLen(line) + 1 > 262144
    ensures Feed(r, line + "\n" + rest) == r.(failed := true)
  {
    hide ByteLen;
    var text := line + "\n" + rest;
    LineEndAt(line, rest);
    assert text[..|line|+1] == line + "\n";
    LineBytes(line);
  }

  /**
    A further data line is kept unless the event's data would then pass 1 MiB, counting one byte more for each line;
    the session ends where it would.
   */
  lemma DataLineIff(r: Reader, data: string)
    requires !r.failed && Plain(data)
    ensures var next, size := Dispatch(r, "data: " + data), r.dataBytes + ByteLen(data) + 1;
            && (next.failed <==> size > 1048576)
            && (!next.failed ==> next == r.(data := r.data + [data], dataBytes := size))
  {
    hide ByteLen;
    hide IsSpace;
    var line := "data: " + data;
    assert line[5..] == " " + data && line[..5] == "data:" && line[..1] == "d" && line[..3] == "dat" &&
      line[..6] == "data: ";
    TrimPlain(data);
  }

  /** An event sent with two data lines is handed on with the two joined by a newline. */
  lemma TwoDataLines(out: seq<Event>, name: string, a: string, b: string, rest: string)
    requires name != "" && name != "shutdown" && Plain(name) && Plain(a) && Plain(b)
    requires ByteLen(name) + 8 <= MAX_LINE_BYTES && ByteLen(a) + 7 <= MAX_LINE_BYTES
    requires ByteLen(b) + 7 <= MAX_LINE_BYTES
    ensures Feed(Idle(out), "event: " + name + "\n" + ("data: " + a + "\n" + ("data: " + b + "\n" + ("\n" + rest)))) ==
            Feed(Idle(out + [Event(name, "", a + "\n" + b)]), rest)
  {
    hide Feed;
    hide ByteLen;
    hide Dispatch;
    var tail := "\n" + rest;
    var second := "data: " + b + "\n" + tail;
    FeedName(Idle(out), name, "data: " + a + "\n" + second);
    var named := Idle(out).(name := name);
    FeedData(named, a, second);
    var one := named.(data := [a], dataBytes := ByteLen(a) + 1);
    DispatchData(named, b);
    DataLineIff(one, b);
    HeadBytes("data: ", b);
    FeedLine(one, "data: " + b, tail);
    var two := one.(data := [a] + [b], dataBytes := ByteLen(a) + 1 + ByteLen(b) + 1);
    FeedBlank(two, rest);
    assert ([a] + [b])[..1] == [a] && Join([a]) == a;
    assert Join([a] + [b]) == a + "\n" + b;
  }

  /** Comment and retry lines leave the reader as it is. */
  predicate IsIgnored(line: string) {
    && '\n' !in line && line != "" && ByteLen(line) + 1 <= MAX_LINE_BYTES
    && (HasPrefix(line, ":") || (HasPrefix(line, "retry:") && line[|line|-1] != '\r'))
  }

  lemma FeedIgnored(out: seq<Event>, line: string, rest: string)
    requires IsIgnored(line)
    ensures Feed(Idle(out), line + "\n" + rest) == Feed(Idle(out), rest)
  {
    hide ByteLen;
    var text := line + "\n" + rest;
    LineEndAt(line, rest);
    assert text[..|line|+1] == line + "\n" && text[|line|+1..] == rest;
    CommentChomp(line);
    LineBytes(line);
    assert Dispatch(Idle(out), Chomp(line + "\n")) == Idle(out);
  }

  /** Chomping keeps a leading colon, and keeps the whole of a line that ends in a digit. */
  lemma {:induction false} CommentChomp(line: string)
    requires '\n' !in line && line != ""
    ensures HasPrefix(line, ":") ==> HasPrefix(Chomp(line + "\n"), ":")
    ensures line[|line|-1] != '\r' ==> Chomp(line + "\n") == line
  {
    assert (line + "\n")[..|line|] == line;
    assert line[|line|-1] in line;
    if HasPrefix(line, ":") { ChompKeepsFirst(line); }
  }

  lemma {:induction false} ChompKeepsFirst(s: string)
    requires s != "" && s[0] != '\r' && s[0] != '\n'
    ensures Chomp(s) != "" && Chomp(s)[0] == s[0]
  {
    if s[|s|-1] == '\r' || s[|s|-1] == '\n' { ChompKeepsFirst(s[..|s|-1]); }
  }

  /** The id line of an event, when it has one. */
  function IdLine(id: Option<nat>): string {
    if id.None? then "" else "id: " + Decimal(id.value) + "\n"
  }

  lemma EventLines(item: Item, rest: string)
    requires item.EventItem? && item.name != ""
    ensures PrintItem(item) + rest ==
            IdLine(item.id) + ("event: " + item.name + "\n" + ("data: " + item.data + "\n" + ("\n" + rest)))
  {
    hide Decimal;
  }

  lemma FeedIdLine(out: seq<Event>, id: Option<nat>, rest: string)
    requires id.Some? ==> id.value <= 0x7fff_ffff_ffff_ffff
    ensures Feed(Idle(out), IdLine(id) + rest) == Feed(Idle(out).(id := IdText(id)), rest)
  {
    hide Feed;
    if id.Some? {
      FeedId(out, id.value, rest);
    } else {
      assert "" + rest == rest;
    }
  }

  /** The name, data and blank lines of an event, from a reader that holds no data. */
  lemma FeedBody(r: Reader, name: string, data: string, rest: string)
    requires !r.done && !r.failed && r.data == [] && r.dataBytes == 0
    requires name != "" && Plain(name) && ByteLen(name) + 8 <= MAX_LINE_BYTES
    requires Plain(data) && ByteLen(data) + 7 <= MAX_LINE_BYTES
    ensures Feed(r, "event: " + name + "\n" + ("data: " + data + "\n" + ("\n" + rest))) ==
            Feed(Flush(r.(name := name, data := [data], dataBytes := ByteLen(data) + 1)), rest)
  {
    hide Feed;
    hide Flush;
    hide ByteLen;
    hide Plain;
    var tail := "\n" + rest;
    FeedName(r, name, "data: " + data + "\n" + tail);
    FeedData(r.(name := name), data, tail);
    FeedBlank(r.(name := name, data := [data], dataBytes := ByteLen(data) + 1), rest);
  }

  lemma FlushEvent(out: seq<Event>, id: string, name: string, data: string, bytes: nat)
    requires name != ""
    ensures Flush(Reader(name, id, [data], bytes, out, false, false)) ==
            Idle(out + [Event(name, id, data)]).(done := name == "shutdown")
  {
    assert Join([data]) == data;
  }

  lemma FeedEvent(out: seq<Event>, item: Item, rest: string)
    requires item.EventItem? && ItemOk(item)
    ensures Feed(Idle(out), PrintItem(item) + rest) ==
            Feed(Idle(out + [Event(item.name, IdText(item.id), item.data)]).(done := item.name == "shutdown"), rest)
  {
    hide Feed;
    hide Flush;
    hide Join;
    hide IdText;
    hide IdLine;
    hide PrintItem;
    hide ByteLen;
    hide Plain;
    var body := "event: " + item.name + "\n" + ("data: " + item.data + "\n" + ("\n" + rest));
    EventLines(item, rest);
    FeedIdLine(out, item.id, body);
    FeedBody(Idle(out).(id := IdText(item.id)), item.name, item.data, rest);
    FlushEvent(out, IdText(item.id), item.name, item.data, ByteLen(item.data) + 1);
  }

  lemma IgnoredLine(item: Item) returns (line: string)
    requires !item.EventItem? && ItemOk(item)
    ensures IsIgnored(line) && PrintItem(item) == line + "\n" + "\n"
  {
    hide ByteLen;
    match item
    case Comment(text) =>
      line := ": " + text;
      assert line[..1] == ":";
      HeadBytes(": ", text);
    case Retry(ms) =>
      IdIsPlain(ms);
      line := "retry: " + Decimal(ms);
      assert line[..6] == "retry:";
      ByteLenAscii(line);
  }

  lemma FeedItem(out: seq<Event>, item: Item, rest: string)
    requires !item.EventItem? && ItemOk(item)
    ensures Feed(Idle(out), PrintItem(item) + rest) == Feed(Idle(out), rest)
  {
    hide Feed;
    hide IsIgnored;
    hide ItemOk;
    hide PrintItem;
    var line := IgnoredLine(item);
    assert PrintItem(item) + rest == line + "\n" + ("\n" + rest);
    FeedIgnored(out, line, "\n" + rest);
    FeedBlank(Idle(out), rest);
  }

  lemma FeedStops(r: Reader, text: string)
    requires r.done || text == ""
    ensures Feed(r, text) == r
  {
  }

  /**
    Reading any printed sequence of well-formed items hands on exactly its events, in order, with the same name, id
    and data.
   */
  lemma {:induction false} StreamRoundTrip(items: seq<Item>, out: seq<Event>)
    requires forall i :: 0 <= i < |items| ==> ItemOk(items[i])
    ensures var r := Feed(Idle(out), Print(items)); r.out == out + Expected(items) && !r.failed
  {
    hide PrintItem;
    hide ItemOk;
    hide Feed;
    FeedStops(Idle(out), "");
    if items != [] {
      var rest := Print(items[1..]);
      if items[0].EventItem? {
        FeedEvent(out, items[0], rest);
        var e := Event(items[0].name, IdText(items[0].id), items[0].data);
        if items[0].name == "shutdown" {
          FeedStops(Idle(out + [e]).(done := true), rest);
        } else {
          StreamRoundTrip(items[1..], out + [e]);
          assert (out + [e]) + Expected(items[1..]) == out + Expected(items);
        }
      } else {
        FeedItem(out, items[0], rest);
        StreamRoundTrip(items[1..], out);
      }
    }
  }
}
