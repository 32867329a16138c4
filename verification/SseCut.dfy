/** Streams that end in the middle of a frame: what the reader hands on, and which cuts do harm. */
module SseCut {
  import opened Text
  import opened SseWire

  /** Dispatches a partial last line and flushes the unfinished frame, as the reader does at the end of input. */
  function LastLine(r: Reader, frag: string): Reader {
    var d := if frag == "" then r else Dispatch(r, Chomp(frag));
    if d.failed then d else Flush(d)
  }

  /** The whole reader: lines until the session ends or the input does; an overlong line ends it. */
  function AtEof(r: Reader, text: string): Reader
    decreases |text|
  {
    var k := LineEnd(text);
    if r.done || r.failed then r
    else if ByteLen(text[..if k < |text| then k + 1 else k]) > MAX_LINE_BYTES then r.(failed := true)
    else if k == |text| then LastLine(r, text)
    else AtEof(Dispatch(r, Chomp(text[..k+1])), text[k+1..])
  }

  /** Whole lines are read as before; only the fragment after them meets the end of input. */
  lemma {:induction false} EofAfterLines(r: Reader, lines: string, rest: string)
    requires lines == "" || lines[|lines|-1] == '\n'
    ensures AtEof(r, lines + rest) == AtEof(Feed(r, lines), rest)
    decreases |lines|
  {
    hide Dispatch;
    hide ByteLen;
    hide Chomp;
    if lines == "" {
      assert lines + rest == rest;
    } else if !r.done && !r.failed {
      var text, k := lines + rest, LineEnd(lines);
      assert k < |lines|;
      LineEndSame(lines, rest);
      assert text[..k+1] == lines[..k+1] && text[k+1..] == lines[k+1..] + rest;
      if ByteLen(lines[..k+1]) <= MAX_LINE_BYTES {
        EofAfterLines(Dispatch(r, Chomp(lines[..k+1])), lines[k+1..], rest);
      }
    }
  }

  lemma {:induction false} LineEndSame(lines: string, rest: string)
    requires LineEnd(lines) < |lines|
    ensures LineEnd(lines + rest) == LineEnd(lines)
  {
    var k := LineEnd(lines);
    assert (lines + rest)[k] == '\n';
    assert forall i :: 0 <= i < k ==> (lines + rest)[i] == lines[i];
  }

  lemma NoLineEnd(frag: string)
    requires '\n' !in frag
    ensures LineEnd(frag) == |frag|
  {
    assert forall i :: 0 <= i < |frag| ==> frag[i] in frag;
  }

  /** The end of input inside one line. */
  lemma EofFragment(r: Reader, line: string, j: nat)
    requires !r.done && !r.failed && '\n' !in line && j <= |line| && ByteLen(line) <= MAX_LINE_BYTES
    ensures AtEof(r, line[..j]) == LastLine(r, line[..j])
  {
    hide LastLine;
    var frag := line[..j];
    assert '\n' !in frag by { forall c | c in frag ensures c in line { } }
    NoLineEnd(frag);
    assert frag[..|frag|] == frag;
    assert line == frag + line[j..];
    ByteLenConcat(frag, line[j..]);
  }

  // ----- Trimming what is left of a field -----

  lemma {:induction false} TrimEndShorter(s: string)
    ensures TrimEnd(s) <= s
  {
    if s != "" && IsSpace(s[|s|-1]) { TrimEndShorter(s[..|s|-1]); }
  }

  lemma {:induction false} ChompShorter(s: string)
    ensures Chomp(s) <= s
  {
    if s != "" && (s[|s|-1] == '\r' || s[|s|-1] == '\n') { ChompShorter(s[..|s|-1]); }
  }

  /** Chomping first makes no difference to a trimmed field. */
  lemma {:induction false} TrimChomp(s: string)
    ensures TrimEnd(Chomp(s)) == TrimEnd(s)
  {
    if s != "" && (s[|s|-1] == '\r' || s[|s|-1] == '\n') { TrimChomp(s[..|s|-1]); }
  }

  lemma {:induction false} TrimEndKeepsFirst(s: string)
    requires s != "" && !IsSpace(s[0])
    ensures TrimEnd(s) != "" && TrimEnd(s)[0] == s[0]
  {
    if IsSpace(s[|s|-1]) { TrimEndKeepsFirst(s[..|s|-1]); }
  }

  lemma {:induction false} ChompAfter(head: string, s: string)
    requires s != "" && s[0] != '\r' && s[0] != '\n'
    ensures Chomp(head + s) == head + Chomp(s) && Chomp(s) != "" && Chomp(s)[0] == s[0]
  {
    if s[|s|-1] == '\r' || s[|s|-1] == '\n' {
      ChompAfter(head, s[..|s|-1]);
      assert (head + s)[..|head + s|-1] == head + s[..|s|-1];
    }
  }

  /** The value a cut field is read as: what is left of it, trimmed. */
  lemma FieldValue(tag: string, head: string, s: string)
    requires head == tag + " " && s != "" && !IsSpace(s[0])
    ensures HasPrefix(Chomp(head + s), tag) && TrimSpace(Chomp(head + s)[|tag|..]) == TrimEnd(s)
  {
    ChompAfter(head, s);
    var line := Chomp(head + s);
    assert line[..|tag|] == tag && line[|tag|..] == " " + Chomp(s);
    assert (" " + Chomp(s))[1..] == Chomp(s);
    assert TrimStart(" " + Chomp(s)) == TrimStart(Chomp(s)) == Chomp(s);
    TrimChomp(s);
  }

  lemma TrimEndBytes(s: string)
    ensures ByteLen(TrimEnd(s)) <= ByteLen(s)
  {
    TrimEndShorter(s);
    var t := TrimEnd(s);
    assert s == t + s[|t|..];
    ByteLenConcat(t, s[|t|..]);
  }

  // ----- One frame cut anywhere -----

  function Clip(j: int, n: nat): nat {
    if j < 0 then 0 else if j > n then n else j
  }

  /** Where the name of a printed event begins to show: its first character has arrived. */
  function NameShows(item: Item): nat
    requires item.EventItem?
  {
    |IdLine(item.id)| + 8
  }

  /** Where its name is whole. */
  function NameWhole(item: Item): nat
    requires item.EventItem?
  {
    |IdLine(item.id)| + 7 + |item.name|
  }

  /** Where nothing but line ends is missing: the data is whole, or there is none and the name is. */
  function AllWhole(item: Item): nat
    requires item.EventItem?
  {
    if item.data == "" then NameWhole(item) else NameWhole(item) + 7 + |item.data|
  }

  /** What the first k characters of a printed event are read as when the stream ends there. */
  function CutEvent(item: Item, k: nat): Option<Event>
    requires item.EventItem?
  {
    if k < NameShows(item) then None
    else if k <= NameWhole(item) then Some(Event(TrimEnd(item.name[..k - NameShows(item) + 1]), IdText(item.id), ""))
    else Some(Event(item.name, IdText(item.id), TrimEnd(item.data[..Clip(k - NameWhole(item) - 7, |item.data|)])))
  }

  function ListOf(e: Option<Event>): seq<Event> {
    if e.None? then [] else [e.value]
  }

  /** Without a name nothing is handed on. */
  lemma NamelessFragment(r: Reader, frag: string)
    requires r.name == "" && !HasPrefix(frag, "event:")
    ensures LastLine(r, frag).out == r.out
  {
    hide TrimSpace;
    ChompShorter(frag);
    assert !HasPrefix(Chomp(frag), "event:");
  }

  /** A cut before the first character of the name leaves it empty. */
  lemma EmptyName(r: Reader, frag: string)
    requires r.name == "" && frag <= "event: "
    ensures LastLine(r, frag).out == r.out
  {
    if |frag| < 6 {
      NamelessFragment(r, frag);
    } else {
      assert frag == "event:" || frag == "event: ";
      assert Chomp(frag) == frag && frag[..6] == "event:" && frag[..1] == "e";
      assert frag[6..] == "" || frag[6..] == " ";
      assert TrimSpace("") == "" && " "[1..] == "" && TrimSpace(" ") == "";
    }
  }

  lemma EventField(r: Reader, line: string)
    requires HasPrefix(line, "event:")
    ensures Dispatch(r, line) == r.(name := TrimSpace(line[6..]))
  {
    hide TrimSpace;
    assert line[..6][0] == 'e' && line[0] == 'e' && line[..1][0] == 'e';
  }

  lemma DataField(r: Reader, line: string)
    requires HasPrefix(line, "data:")
    requires r.dataBytes + ByteLen(TrimSpace(line[5..])) + 1 <= MAX_EVENT_BYTES
    ensures Dispatch(r, line) ==
            r.(data := r.data + [TrimSpace(line[5..])], dataBytes := r.dataBytes + ByteLen(TrimSpace(line[5..])) + 1)
  {
    hide TrimSpace;
    hide ByteLen;
    assert line[..5][0] == 'd' && line[0] == 'd' && line[..1][0] == 'd' && line[..3][0] == 'd';
    assert |line| >= 6 ==> line[..6][0] == 'd';
  }

  lemma CutName(r: Reader, name: string)
    requires r.name == "" && r.data == [] && !r.failed && name != "" && !IsSpace(name[0])
    ensures LastLine(r, "event: " + name).out == r.out + [Event(TrimEnd(name), r.id, "")]
  {
    assert Join([]) == "";
    hide Join;
    hide IsSpace;
    hide TrimSpace;
    hide TrimEnd;
    hide Chomp;
    hide HasPrefix;
    hide Dispatch;
    assert "event: " == "event:" + " ";
    FieldValue("event:", "event: ", name);
    TrimEndKeepsFirst(name);
    EventField(r, Chomp("event: " + name));
  }

  /** A cut before the first character of the data leaves it empty. */
  lemma EmptyData(r: Reader, frag: string)
    requires r.name != "" && r.data == [] && r.dataBytes == 0 && !r.failed && frag <= "data: "
    ensures LastLine(r, frag).out == r.out + [Event(r.name, r.id, "")]
  {
    assert Join([]) == "" && Join([""]) == "" && [] + [""] == [""];
    if |frag| < 5 {
      ChompShorter(frag);
      assert frag != "" ==> frag[0] == 'd' && Chomp(frag) != "" by { if frag != "" { ChompKeepsFirst(frag); } }
    } else {
      assert frag == "data:" || frag == "data: ";
      assert Chomp(frag) == frag && frag[..5] == "data:" && frag[..1] == "d" && frag[..3] == "dat";
      assert frag[5..] == "" || frag[5..] == " ";
      assert TrimSpace("") == "" && " "[1..] == "" && TrimSpace(" ") == "";
      assert ByteLen("") == 0;
    }
  }

  lemma CutData(r: Reader, data: string)
    requires r.name != "" && r.data == [] && r.dataBytes == 0 && !r.failed
    requires data != "" && !IsSpace(data[0]) && ByteLen(data) < MAX_EVENT_BYTES
    ensures LastLine(r, "data: " + data).out == r.out + [Event(r.name, r.id, TrimEnd(data))]
  {
    var payload := TrimEnd(data);
    assert Join([payload]) == payload;
    hide Join;
    hide IsSpace;
    hide TrimSpace;
    hide TrimEnd;
    hide Chomp;
    hide HasPrefix;
    hide Dispatch;
    hide ByteLen;
    assert "data: " == "data:" + " ";
    FieldValue("data:", "data: ", data);
    TrimEndBytes(data);
    DataField(r, Chomp("data: " + data));
    assert [] + [payload] == [payload];
  }

  /** The reader after the id line. */
  function AfterId(out: seq<Event>, item: Item): Reader
    requires item.EventItem?
  {
    Idle(out).(id := IdText(item.id))
  }

  lemma IdLineRead(out: seq<Event>, item: Item, rest: string)
    requires item.EventItem? && ItemOk(item)
    ensures AtEof(Idle(out), IdLine(item.id) + rest) == AtEof(AfterId(out, item), rest)
  {
    hide AtEof;
    hide Feed;
    FeedIdLine(out, item.id, "");
    assert IdLine(item.id) + "" == IdLine(item.id);
    FeedStops(AfterId(out, item), "");
    EofAfterLines(Idle(out), IdLine(item.id), rest);
  }

  lemma NameLineRead(r: Reader, name: string, rest: string)
    requires !r.done && !r.failed && name != "" && Plain(name) && ByteLen(name) + 8 <= MAX_LINE_BYTES
    ensures AtEof(r, "event: " + name + "\n" + rest) == AtEof(r.(name := name), rest)
  {
    hide AtEof;
    hide Feed;
    hide Plain;
    hide ByteLen;
    var line := "event: " + name + "\n";
    FeedName(r, name, "");
    assert line + "" == line;
    FeedStops(r.(name := name), "");
    EofAfterLines(r, line, rest);
  }

  lemma DataLineRead(r: Reader, data: string, rest: string)
    requires !r.done && !r.failed && r.data == [] && r.dataBytes == 0
    requires Plain(data) && ByteLen(data) + 7 <= MAX_LINE_BYTES
    ensures AtEof(r, "data: " + data + "\n" + rest) == AtEof(r.(data := [data], dataBytes := ByteLen(data) + 1), rest)
  {
    hide AtEof;
    hide Feed;
    hide Plain;
    hide ByteLen;
    var line := "data: " + data + "\n";
    FeedData(r, data, "");
    assert line + "" == line;
    FeedStops(r.(data := [data], dataBytes := ByteLen(data) + 1), "");
    EofAfterLines(r, line, rest);
  }

  lemma CutInId(out: seq<Event>, item: Item, k: nat)
    requires item.EventItem? && ItemOk(item) && k < |IdLine(item.id)|
    ensures AtEof(Idle(out), IdLine(item.id)[..k]).out == out
  {
    hide AtEof;
    hide LastLine;
    hide Decimal;
    hide ByteLen;
    var line := "id: " + Decimal(item.id.value);
    DispatchId(Idle(out), item.id.value);
    assert IdLine(item.id)[..k] == line[..k];
    EofFragment(Idle(out), line, k);
    assert !HasPrefix(line[..k], "event:") by { assert k > 0 ==> line[..k][0] == 'i'; }
    NamelessFragment(Idle(out), line[..k]);
  }

  lemma CutInName(r: Reader, name: string, j: nat)
    requires !r.done && !r.failed && r.name == "" && r.data == []
    requires name != "" && Plain(name) && ByteLen(name) + 8 <= MAX_LINE_BYTES && j <= 7 + |name|
    ensures AtEof(r, ("event: " + name)[..j]).out ==
            r.out + if j < 8 then [] else [Event(TrimEnd(name[..j-7]), r.id, "")]
  {
    hide AtEof;
    hide LastLine;
    hide ByteLen;
    hide TrimEnd;
    hide IsSpace;
    var line := "event: " + name;
    HeadBytes("event: ", name);
    EofFragment(r, line, j);
    if j < 8 {
      assert line[..j] == "event: "[..j];
      EmptyName(r, line[..j]);
    } else {
      assert line[..j] == "event: " + name[..j-7];
      CutName(r, name[..j-7]);
    }
  }

  lemma CutInData(r: Reader, data: string, j: nat)
    requires !r.done && !r.failed && r.name != "" && r.data == [] && r.dataBytes == 0
    requires Plain(data) && ByteLen(data) + 7 <= MAX_LINE_BYTES && j <= 6 + |data|
    ensures AtEof(r, ("data: " + data)[..j]).out == r.out + [Event(r.name, r.id, TrimEnd(data[..Clip(j - 6, |data|)]))]
  {
    hide AtEof;
    hide LastLine;
    hide ByteLen;
    hide IsSpace;
    var line := "data: " + data;
    HeadBytes("data: ", data);
    EofFragment(r, line, j);
    if j <= 6 {
      assert line[..j] == "data: "[..j];
      EmptyData(r, line[..j]);
      assert data[..0] == "" && TrimEnd("") == "";
    } else {
      var p := data[..j-6];
      assert line[..j] == "data: " + p;
      assert data == p + data[j-6..];
      ByteLenConcat(p, data[j-6..]);
      CutData(r, p);
    }
  }

  /** The end of input after the data line, or after the blank line too. */
  lemma CutAfterData(r: Reader, rest: string)
    requires !r.done && !r.failed && r.name != "" && |r.data| == 1 && (rest == "" || rest == "\n")
    ensures AtEof(r, rest).out == r.out + [Event(r.name, r.id, r.data[0])]
  {
    assert r.data == [r.data[0]] && Join(r.data) == r.data[0];
    assert ByteLen("") == 0 && LineEnd("") == 0;
    if rest == "\n" {
      assert LineEnd("\n") == 0 && "\n"[..1] == "\n" && "\n"[1..] == "" && "\n"[..0] == "";
      ByteLenAscii("\n");
      assert Chomp("\n") == "";
      assert AtEof(r, "\n") == AtEof(Flush(r), "");
    }
  }

  lemma TakeConcat(a: string, b: string, k: nat)
    requires |a| <= k <= |a| + |b|
    ensures (a + b)[..k] == a + b[..k - |a|]
  {
  }

  lemma TakeWithin(a: string, b: string, c: string, k: nat)
    requires k <= |a|
    ensures (a + b + c)[..k] == a[..k]
  {
  }

  lemma TakeBeyond(line: string, k: nat)
    requires k == |line| + 1 || k == |line| + 2
    ensures (line + "\n" + "\n")[..k] == line + "\n" + if k == |line| + 1 then "" else "\n"
  {
  }

  lemma CutBeyondData(r: Reader, data: string, rest: string)
    requires !r.done && !r.failed && r.name != "" && r.data == [] && r.dataBytes == 0
    requires Plain(data) && ByteLen(data) + 7 <= MAX_LINE_BYTES && (rest == "" || rest == "\n")
    ensures AtEof(r, "data: " + data + "\n" + rest).out == r.out + [Event(r.name, r.id, data)]
  {
    hide AtEof;
    hide ByteLen;
    hide Plain;
    DataLineRead(r, data, rest);
    CutAfterData(r.(data := [data], dataBytes := ByteLen(data) + 1), rest);
  }

  lemma PlainIsTrimmed(s: string)
    requires Plain(s)
    ensures TrimEnd(s[..|s|]) == s
  {
    assert s[..|s|] == s;
  }

  lemma CutTail(r: Reader, data: string, j: nat)
    requires !r.done && !r.failed && r.name != "" && r.data == [] && r.dataBytes == 0
    requires Plain(data) && ByteLen(data) + 7 <= MAX_LINE_BYTES && j <= 8 + |data|
    ensures AtEof(r, ("data: " + data + "\n" + "\n")[..j]).out ==
            r.out + [Event(r.name, r.id, TrimEnd(data[..Clip(j - 6, |data|)]))]
  {
    hide AtEof;
    hide ByteLen;
    hide TrimEnd;
    hide Plain;
    PlainIsTrimmed(data);
    var line := "data: " + data;
    assert |line| == 6 + |data|;
    if j <= |line| {
      TakeWithin(line, "\n", "\n", j);
      CutInData(r, data, j);
    } else {
      TakeBeyond(line, j);
      CutBeyondData(r, data, if j == |line| + 1 then "" else "\n");
    }
  }

  /** The same for the lines after the id. */
  lemma CutBody(out: seq<Event>, item: Item, j: nat)
    requires item.EventItem? && ItemOk(item) && j <= |item.name| + |item.data| + 16
    ensures var body := "event: " + item.name + "\n" + ("data: " + item.data + "\n" + "\n");
            AtEof(AfterId(out, item), body[..j]).out == out + ListOf(CutEvent(item, |IdLine(item.id)| + j))
  {
    hide AtEof;
    hide ByteLen;
    hide Plain;
    hide TrimEnd;
    hide IdLine;
    hide IdText;
    var name, tail := "event: " + item.name, "data: " + item.data + "\n" + "\n";
    var r := AfterId(out, item);
    if j <= |name| {
      TakeWithin(name, "\n", tail, j);
      CutInName(r, item.name, j);
    } else {
      TakeConcat(name + "\n", tail, j);
      NameLineRead(r, item.name, tail[..j - |name| - 1]);
      CutTail(r.(name := item.name), item.data, j - |name| - 1);
    }
  }

  /** A printed event cut at any point is read as CutEvent says. */
  lemma CutFrame(out: seq<Event>, item: Item, k: nat)
    requires item.EventItem? && ItemOk(item) && k <= |PrintItem(item)|
    ensures AtEof(Idle(out), PrintItem(item)[..k]).out == out + ListOf(CutEvent(item, k))
  {
    hide AtEof;
    hide ByteLen;
    hide Plain;
    hide TrimEnd;
    hide IdLine;
    hide IdText;
    hide PrintItem;
    EventLines(item, "");
    var id, body := IdLine(item.id), "event: " + item.name + "\n" + ("data: " + item.data + "\n" + "\n");
    assert PrintItem(item) + "" == PrintItem(item) && "\n" + "" == "\n";
    assert PrintItem(item) == id + body;
    if k < |id| {
      TakeWithin(id, body, "", k);
      assert id + body + "" == id + body;
      CutInId(out, item, k);
    } else {
      TakeConcat(id, body, k);
      IdLineRead(out, item, body[..k - |id|]);
      CutBody(out, item, k - |id|);
    }
  }

  function Whole(item: Item): Event
    requires item.EventItem?
  {
    Event(item.name, IdText(item.id), item.data)
  }

  lemma {:induction false} TrimmedPrefix(s: string, m: nat)
    requires Plain(s) && m <= |s|
    ensures TrimEnd(s[..m]) == s <==> m == |s|
  {
    TrimEndShorter(s[..m]);
    assert s[..|s|] == s;
  }

  /**
    Nothing is handed on before the name shows, the event itself once everything is whole, and a wrong event in
    between.
   */
  lemma CutEventIff(item: Item, k: nat)
    requires item.EventItem? && ItemOk(item)
    ensures CutEvent(item, k) == None <==> k < NameShows(item)
    ensures CutEvent(item, k) == Some(Whole(item)) <==> k >= AllWhole(item)
    ensures NameShows(item) <= NameWhole(item) <= AllWhole(item) <= |PrintItem(item)| - 2
  {
    hide TrimEnd;
    hide IdText;
    hide ByteLen;
    hide Plain;
    EventLines(item, "");
    assert |PrintItem(item)| == |IdLine(item.id)| + |item.name| + |item.data| + 16;
    if NameShows(item) <= k <= NameWhole(item) {
      TrimmedPrefix(item.name, k - NameShows(item) + 1);
    } else if k > NameWhole(item) {
      TrimmedPrefix(item.data, Clip(k - NameWhole(item) - 7, |item.data|));
    }
  }

  /** Inside the name a shorter name is handed on, never empty, with the id of the event and no data. */
  lemma TruncatedNameHandedOn(out: seq<Event>, item: Item, k: nat)
    requires item.EventItem? && ItemOk(item) && NameShows(item) <= k < NameWhole(item)
    ensures k <= |PrintItem(item)|
    ensures var name := TrimEnd(item.name[..k - NameShows(item) + 1]);
            && name < item.name && name != ""
            && AtEof(Idle(out), PrintItem(item)[..k]).out == out + [Event(name, IdText(item.id), "")]
  {
    hide AtEof;
    hide PrintItem;
    hide ByteLen;
    CutEventIff(item, k);
    CutFrame(out, item, k);
    var p := item.name[..k - NameShows(item) + 1];
    TrimEndShorter(p);
    TrimEndKeepsFirst(p);
  }

  // ----- A stream cut anywhere -----

  /** What the first k characters of a printed stream are read as when it ends there. */
  function Seen(items: seq<Item>, k: nat): seq<Event> {
    if items == [] then []
    else
      var n := |PrintItem(items[0])|;
      if k < n then (if items[0].EventItem? then ListOf(CutEvent(items[0], k)) else [])
      else if !items[0].EventItem? then Seen(items[1..], k - n)
      else [Whole(items[0])] + (if items[0].name == "shutdown" then [] else Seen(items[1..], k - n))
  }

  /**
    The cut falls after the first character of an event's name and before its data is whole, and no shutdown came
    earlier.
   */
  predicate Harmful(items: seq<Item>, k: nat) {
    items != [] &&
    var n := |PrintItem(items[0])|;
    if k < n then items[0].EventItem? && NameShows(items[0]) <= k < AllWhole(items[0])
    else !(items[0].EventItem? && items[0].name == "shutdown") && Harmful(items[1..], k - n)
  }

  lemma LastLineEmpty(out: seq<Event>)
    ensures AtEof(Idle(out), "").out == out
  {
    assert LineEnd("") == 0 && ByteLen("") == 0;
  }

  lemma CutInIgnored(out: seq<Event>, line: string, k: nat)
    requires IsIgnored(line) && k <= |line|
    ensures AtEof(Idle(out), line[..k]).out == out
  {
    hide AtEof;
    hide LastLine;
    hide ByteLen;
    EofFragment(Idle(out), line, k);
    assert k > 0 ==> line[..k][0] == line[0];
    assert line[0] == line[..1][0] && (|line| >= 6 ==> line[0] == line[..6][0]);
    assert k >= 6 ==> line[..k][..6][0] == line[0];
    NamelessFragment(Idle(out), line[..k]);
  }

  lemma CutIgnored(out: seq<Event>, item: Item, k: nat)
    requires !item.EventItem? && ItemOk(item) && k < |PrintItem(item)|
    ensures AtEof(Idle(out), PrintItem(item)[..k]).out == out
  {
    hide AtEof;
    hide Feed;
    hide IsIgnored;
    hide ItemOk;
    hide PrintItem;
    var line := IgnoredLine(item);
    if k <= |line| {
      assert PrintItem(item)[..k] == line[..k];
      CutInIgnored(out, line, k);
    } else {
      var read := line + "\n";
      assert PrintItem(item)[..k] == read && read + "" == read;
      FeedIgnored(out, line, "");
      FeedStops(Idle(out), "");
      EofAfterLines(Idle(out), read, "");
      LastLineEmpty(out);
    }
  }

  /** The reader after a whole item. */
  function AfterItem(out: seq<Event>, item: Item): Reader {
    if item.EventItem? then Idle(out + [Whole(item)]).(done := item.name == "shutdown") else Idle(out)
  }

  lemma WholeItemRead(out: seq<Event>, item: Item, rest: string)
    requires ItemOk(item)
    ensures AtEof(Idle(out), PrintItem(item) + rest) == AtEof(AfterItem(out, item), rest)
  {
    hide AtEof;
    hide Feed;
    hide ItemOk;
    hide Decimal;
    assert PrintItem(item)[|PrintItem(item)|-1] == '\n';
    hide PrintItem;
    assert PrintItem(item) + "" == PrintItem(item);
    EofAfterLines(Idle(out), PrintItem(item), rest);
    if item.EventItem? {
      FeedEvent(out, item, "");
      FeedStops(Idle(out + [Whole(item)]).(done := item.name == "shutdown"), "");
    } else {
      FeedItem(out, item, "");
      FeedStops(Idle(out), "");
    }
  }

  lemma {:induction false} StreamCut(items: seq<Item>, out: seq<Event>, k: nat)
    requires (forall i :: 0 <= i < |items| ==> ItemOk(items[i])) && k <= |Print(items)|
    ensures AtEof(Idle(out), Print(items)[..k]).out == out + Seen(items, k)
  {
    hide AtEof;
    hide PrintItem;
    hide ItemOk;
    hide CutEvent;
    if items == [] {
      LastLineEmpty(out);
    } else {
      var item, rest, n := items[0], Print(items[1..]), |PrintItem(items[0])|;
      if k < n {
        assert Print(items)[..k] == PrintItem(item)[..k];
        if item.EventItem? { CutFrame(out, item, k); } else { CutIgnored(out, item, k); }
      } else {
        TakeConcat(PrintItem(item), rest, k);
        WholeItemRead(out, item, rest[..k-n]);
        if item.EventItem? && item.name == "shutdown" {
          DoneStays(Idle(out + [Whole(item)]).(done := true), rest[..k-n]);
        } else if item.EventItem? {
          StreamCut(items[1..], out + [Whole(item)], k - n);
          assert (out + [Whole(item)]) + Seen(items[1..], k - n) == out + Seen(items, k);
        } else {
          StreamCut(items[1..], out, k - n);
        }
      }
    }
  }

  lemma DoneStays(r: Reader, text: string)
    requires r.done
    ensures AtEof(r, text) == r
  {
  }

  lemma {:induction false} SeenPrefixIff(items: seq<Item>, k: nat)
    requires forall i :: 0 <= i < |items| ==> ItemOk(items[i])
    ensures Seen(items, k) <= Expected(items) <==> !Harmful(items, k)
  {
    hide PrintItem;
    hide ItemOk;
    hide CutEvent;
    if items != [] {
      var item, n := items[0], |PrintItem(items[0])|;
      if k < n {
        if item.EventItem? { CutEventIff(item, k); }
      } else {
        SeenPrefixIff(items[1..], k - n);
        if item.EventItem? && item.name != "shutdown" {
          PrefixCons(Whole(item), Seen(items[1..], k - n), Expected(items[1..]));
        }
      }
    }
  }

  lemma PrefixCons(e: Event, a: seq<Event>, b: seq<Event>)
    ensures [e] + a <= [e] + b <==> a <= b
  {
    var ea, eb := [e] + a, [e] + b;
    assert ea[1..] == a && eb[1..] == b;
    if a <= b { assert b == a + b[|a|..] && eb == ea + b[|a|..]; }
    if ea <= eb { assert eb == ea + eb[|ea|..] && b == a + eb[|ea|..]; }
  }

  /**
    A stream that breaks off hands on a prefix of its events, and nothing else, if and only if the cut is not a
    harmful one.
   */
  lemma StreamCutIff(items: seq<Item>, k: nat)
    requires (forall i :: 0 <= i < |items| ==> ItemOk(items[i])) && k <= |Print(items)|
    ensures AtEof(Idle([]), Print(items)[..k]).out <= Expected(items) <==> !Harmful(items, k)
  {
    StreamCut(items, [], k);
    SeenPrefixIff(items, k);
    assert [] + Seen(items, k) == Seen(items, k);
  }
}
