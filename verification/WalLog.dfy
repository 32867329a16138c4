/**
  The decision log on disk: its lines, the file with a possibly torn tail,
  the two-pass load, and the one-pass replay it agrees with.
 */
module WalLog {
  import opened Text

  const WAL_SCHEMA_VERSION := 2

  datatype Action = Allow | Deny | Passthrough | OtherAction(name: Str)

  datatype Decision = Decision(walSeq: int, fingerprint: Str, principalId: Str, score: int, blacklisted: bool,
                               scoreReason: Str, action: Action, decidedAt: int)

  datatype Line = Meta(schemaVersion: int, nextSeq: int) | Dec(rec: Decision) | Ack(through: int)

  /** A line of the file as the loader sees it: parsed, or not JSON. */
  datatype Token = Good(line: Line) | Bad

  /** terminated: the last token ends in a newline. */
  datatype File = File(tokens: seq<Token>, terminated: bool)

  function Whole(lines: seq<Line>): File {
    File(seq(|lines|, i requires 0 <= i < |lines| => Good(lines[i])), true)
  }

  /** Appending a line. After a tail without a newline the two run together and neither parses any more. */
  function Write(f: File, line: Line): File {
    if f.terminated || f.tokens == [] then File(f.tokens + [Good(line)], true)
    else File(f.tokens[..|f.tokens|-1] + [Bad], true)
  }

  // ----- What the two passes compute -----

  /** Highest acknowledged sequence number. */
  function AckMark(lines: seq<Line>): (mark: int)
    ensures mark >= 0
  {
    if lines == [] then 0
    else
      var mark, last := AckMark(lines[..|lines|-1]), lines[|lines|-1];
      if last.Ack? && last.through > mark then last.through else mark
  }

  function NextSeq(lines: seq<Line>): (next: int)
    ensures next >= 1
  {
    if lines == [] then 1
    else
      var next, last := NextSeq(lines[..|lines|-1]), lines[|lines|-1];
      match last
      case Meta(_, n) => if n > next then n else next
      case Dec(rec) => if rec.walSeq >= next then rec.walSeq + 1 else next
      case Ack(_) => next
  }

  /** The decisions above a watermark, in file order. */
  function Decs(lines: seq<Line>, above: int): seq<Decision> {
    if lines == [] then []
    else
      var last := lines[|lines|-1];
      Decs(lines[..|lines|-1], above) + (if last.Dec? && last.rec.walSeq > above then [last.rec] else [])
  }

  datatype Loaded = Loaded(recs: seq<Decision>, nextSeq: int)

  function TwoPass(lines: seq<Line>): Loaded {
    Loaded(Decs(lines, AckMark(lines)), NextSeq(lines))
  }

  // ----- The one-pass specification -----

  /** Removes the longest prefix with sequence numbers up to t. */
  function DropThrough(recs: seq<Decision>, t: int): (rest: seq<Decision>)
    ensures |rest| <= |recs| && rest == recs[|recs|-|rest|..]
  {
    if recs != [] && recs[0].walSeq <= t then DropThrough(recs[1..], t) else recs
  }

  function ReplayLine(st: Loaded, line: Line): Loaded {
    match line
    case Meta(_, n) => st.(nextSeq := if n > st.nextSeq then n else st.nextSeq)
    case Dec(rec) => Loaded(st.recs + [rec], if rec.walSeq >= st.nextSeq then rec.walSeq + 1 else st.nextSeq)
    case Ack(t) => st.(recs := DropThrough(st.recs, t))
  }

  /** Reading the log line by line: append on dec, remove a prefix on ack. */
  function OnePass(lines: seq<Line>): Loaded {
    if lines == [] then Loaded([], 1) else ReplayLine(OnePass(lines[..|lines|-1]), lines[|lines|-1])
  }

  // ----- The logs the WAL writes -----

  /** recs carry the consecutive sequence numbers that end just below next. */
  predicate Contiguous(recs: seq<Decision>, next: int) {
    |recs| < next && forall i :: 0 <= i < |recs| ==> recs[i].walSeq == next - |recs| + i
  }

  function DecLines(recs: seq<Decision>): (r: seq<Line>)
    ensures |r| == |recs| && forall i :: 0 <= i < |recs| ==> r[i] == Dec(recs[i])
  {
    if recs == [] then [] else DecLines(recs[..|recs|-1]) + [Dec(recs[|recs|-1])]
  }

  /** What compaction writes. */
  function Image(recs: seq<Decision>, next: int): seq<Line> {
    [Meta(WAL_SCHEMA_VERSION, next)] + DecLines(recs)
  }

  predicate LegalLine(line: Line, next: int) {
    match line
    case Meta(_, _) => false
    case Dec(rec) => rec.walSeq == next
    case Ack(t) => 0 < t < next
  }

  /** A compaction image followed by lines each legal after the ones before it. */
  ghost predicate Legal(lines: seq<Line>, image: nat)
    decreases |lines|
  {
    if |lines| <= image
    then exists recs, next :: Contiguous(recs, next) && lines == Image(recs, next) && image == |lines|
    else LegalLine(lines[|lines|-1], NextSeq(lines[..|lines|-1])) && Legal(lines[..|lines|-1], image)
  }

  lemma {:induction false} DropThroughContiguous(recs: seq<Decision>, next: int, t: int)
    requires Contiguous(recs, next) && t < next
    ensures Contiguous(DropThrough(recs, t), next)
    ensures forall i :: 0 <= i < |DropThrough(recs, t)| ==> DropThrough(recs, t)[i].walSeq > t
  {
    if recs != [] && recs[0].walSeq <= t { DropThroughContiguous(recs[1..], next, t); }
  }

  lemma {:induction false} ImageReplay(recs: seq<Decision>, next: int, k: nat)
    requires Contiguous(recs, next) && k <= |recs|
    ensures var lines := [Meta(WAL_SCHEMA_VERSION, next)] + DecLines(recs)[..k];
            && OnePass(lines) == Loaded(recs[..k], next)
            && NextSeq(lines) == next && AckMark(lines) == 0 && Decs(lines, 0) == recs[..k]
  {
    hide DecLines;
    var lines := [Meta(WAL_SCHEMA_VERSION, next)] + DecLines(recs)[..k];
    if k == 0 {
      assert lines == [Meta(WAL_SCHEMA_VERSION, next)] && lines[..0] == [];
    } else {
      ImageReplay(recs, next, k - 1);
      assert lines[..|lines|-1] == [Meta(WAL_SCHEMA_VERSION, next)] + DecLines(recs)[..k-1];
      assert recs[..k] == recs[..k-1] + [recs[k-1]];
    }
  }

  /** Raising the watermark filters further. */
  lemma {:induction false} DecsAbove(lines: seq<Line>, low: int, high: int)
    requires low <= high
    ensures Decs(lines, high) == Above(Decs(lines, low), high)
  {
    if lines != [] {
      var last := |lines| - 1;
      DecsAbove(lines[..last], low, high);
      AboveAppend(Decs(lines[..last], low), lines[last], low, high);
    }
  }

  function Above(recs: seq<Decision>, t: int): seq<Decision> {
    if recs == [] then []
    else Above(recs[..|recs|-1], t) + (if recs[|recs|-1].walSeq > t then [recs[|recs|-1]] else [])
  }

  lemma AboveAppend(recs: seq<Decision>, line: Line, low: int, high: int)
    requires low <= high
    ensures Above(recs + (if line.Dec? && line.rec.walSeq > low then [line.rec] else []), high) ==
            Above(recs, high) + (if line.Dec? && line.rec.walSeq > high then [line.rec] else [])
  {
    if line.Dec? && line.rec.walSeq > low {
      assert (recs + [line.rec])[..|recs|] == recs;
    } else {
      assert recs + [] == recs;
    }
  }

  /** On consecutive numbers, filtering above t is dropping the prefix up to t. */
  lemma {:induction false} AboveIsDrop(recs: seq<Decision>, next: int, t: int)
    requires Contiguous(recs, next)
    ensures Above(recs, t) == DropThrough(recs, t)
  {
    if recs != [] {
      AbovePrepend(recs[0], recs[1..], t);
      assert [recs[0]] + recs[1..] == recs;
      AboveIsDrop(recs[1..], next, t);
      if recs[0].walSeq > t { AboveAll(recs, t); }
    }
  }

  lemma {:induction false} AbovePrepend(r: Decision, recs: seq<Decision>, t: int)
    ensures Above([r] + recs, t) == (if r.walSeq > t then [r] else []) + Above(recs, t)
  {
    if recs == [] {
      assert [r] + recs == [r] && [r][..0] == [];
    } else {
      assert ([r] + recs)[..|recs|] == [r] + recs[..|recs|-1];
      AbovePrepend(r, recs[..|recs|-1], t);
    }
  }

  lemma {:induction false} AboveAll(recs: seq<Decision>, t: int)
    requires forall i :: 0 <= i < |recs| ==> recs[i].walSeq > t
    ensures Above(recs, t) == recs
  {
    if recs != [] {
      AboveAll(recs[..|recs|-1], t);
    }
  }

  /** Every legal log: the two-pass load is the one-pass replay, and leaves consecutive numbers below nextSeq. */
  lemma {:induction false} TwoPassIsOnePass(lines: seq<Line>, image: nat)
    requires Legal(lines, image)
    ensures TwoPass(lines) == OnePass(lines)
    ensures Contiguous(OnePass(lines).recs, OnePass(lines).nextSeq)
    ensures AckMark(lines) < NextSeq(lines)
    decreases |lines|
  {
    if |lines| <= image {
      var recs, next :| Contiguous(recs, next) && lines == Image(recs, next);
      ImageReplay(recs, next, |recs|);
      assert DecLines(recs)[..|recs|] == DecLines(recs) && recs[..|recs|] == recs;
    } else {
      var before := lines[..|lines|-1];
      var last := lines[|lines|-1];
      assert lines == before + [last];
      TwoPassIsOnePass(before, image);
      match last
      case Ack(t) => AckStep(before, t);
      case Dec(rec) => DecStep(before, rec);
    }
  }

  lemma DecStep(before: seq<Line>, rec: Decision)
    requires AckMark(before) < rec.walSeq
    ensures var lines := before + [Dec(rec)];
            && lines[..|before|] == before
            && AckMark(lines) == AckMark(before)
            && Decs(lines, AckMark(lines)) == Decs(before, AckMark(before)) + [rec]
  {
    var lines := before + [Dec(rec)];
    assert lines[..|before|] == before;
  }

  lemma AckStep(before: seq<Line>, t: int)
    requires TwoPass(before) == OnePass(before) && Contiguous(OnePass(before).recs, NextSeq(before))
    requires AckMark(before) < NextSeq(before) && t < NextSeq(before)
    ensures var lines := before + [Ack(t)];
            && lines[..|before|] == before
            && Decs(lines, AckMark(lines)) == DropThrough(OnePass(before).recs, t)
            && Contiguous(DropThrough(OnePass(before).recs, t), NextSeq(before))
  {
    var mark, recs, lines := AckMark(before), OnePass(before).recs, before + [Ack(t)];
    assert lines[..|before|] == before;
    DropThroughContiguous(recs, NextSeq(before), t);
    var mark' := AckMark(lines);
    DecsAbove(before, mark, mark');
    AboveIsDrop(recs, NextSeq(before), mark');
    assert Decs(lines, mark') == Decs(before, mark');
    if t <= mark { MarkedAlready(recs, before, mark, t); }
  }

  lemma MarkedAlready(recs: seq<Decision>, lines: seq<Line>, mark: int, t: int)
    requires recs == Decs(lines, mark) && t <= mark
    ensures DropThrough(recs, t) == recs == DropThrough(recs, mark)
  {
    DecsAreAbove(lines, mark);
  }

  lemma {:induction false} DecsAreAbove(lines: seq<Line>, mark: int)
    ensures forall i :: 0 <= i < |Decs(lines, mark)| ==> Decs(lines, mark)[i].walSeq > mark
  {
    if lines != [] { DecsAreAbove(lines[..|lines|-1], mark); }
  }

  // ----- Loading a file -----

  datatype LoadError = CorruptLine | UnsupportedSchema

  /** Only the last token may be unparsable. */
  predicate TornAtMostAtEnd(tokens: seq<Token>) {
    forall i :: 0 <= i < |tokens| - 1 ==> tokens[i].Good?
  }

  /** The lines that parse, in order. */
  function LinesOf(tokens: seq<Token>): seq<Line> {
    if tokens == [] then []
    else LinesOf(tokens[..|tokens|-1]) + (if tokens[|tokens|-1].Good? then [tokens[|tokens|-1].line] else [])
  }

  lemma LinesOfAppend(tokens: seq<Token>, t: Token)
    ensures t.Good? ==> LinesOf(tokens + [t]) == LinesOf(tokens) + [t.line]
    ensures t.Bad? ==> LinesOf(tokens + [t]) == LinesOf(tokens)
  {
    assert (tokens + [t])[..|tokens|] == tokens;
  }

  predicate AllGood(tokens: seq<Token>) {
    forall i :: 0 <= i < |tokens| ==> tokens[i].Good?
  }

  lemma {:induction false} LinesOfGood(tokens: seq<Token>)
    requires AllGood(tokens)
    ensures |LinesOf(tokens)| == |tokens|
    ensures forall i :: 0 <= i < |tokens| ==> tokens[i] == Good(LinesOf(tokens)[i])
  {
    if tokens != [] { LinesOfGood(tokens[..|tokens|-1]); }
  }

  lemma {:induction false} WholeLines(lines: seq<Line>)
    ensures AllGood(Whole(lines).tokens) && LinesOf(Whole(lines).tokens) == lines
  {
    if lines != [] {
      WholeLines(lines[..|lines|-1]);
      assert Whole(lines).tokens[..|lines|-1] == Whole(lines[..|lines|-1]).tokens;
    }
  }

  predicate SchemaOk(line: Line) {
    line.Meta? ==> line.schemaVersion == 0 || line.schemaVersion == WAL_SCHEMA_VERSION
  }

  predicate SchemasOk(lines: seq<Line>) {
    forall i :: 0 <= i < |lines| ==> SchemaOk(lines[i])
  }

  /** Both passes over a file. */
  function Load(f: File): Result<Loaded, LoadError> {
    if !TornAtMostAtEnd(f.tokens) then Err(CorruptLine)
    else
      var lines := LinesOf(f.tokens);
      if SchemasOk(lines) then Ok(TwoPass(lines)) else Err(UnsupportedSchema)
  }

  /** First pass: watermarks only, tolerating one unparsable token at the end. */
  method ScanWatermarks(tokens: seq<Token>) returns (r: Result<(int, int), LoadError>)
    ensures r.Err? <==> !TornAtMostAtEnd(tokens)
    ensures r.Ok? ==> r.value == (AckMark(LinesOf(tokens)), NextSeq(LinesOf(tokens)))
  {
    var ackThrough, nextSeq, torn := 0, 1, false;
    assert LinesOf(tokens[..0]) == [] && tokens[..|tokens|] == tokens;
    hide LinesOf;
    for i := 0 to |tokens|
      invariant forall k :: 0 <= k < i - 1 ==> tokens[k].Good?
      invariant torn <==> i > 0 && tokens[i-1].Bad?
      invariant ackThrough == AckMark(LinesOf(tokens[..i])) && nextSeq == NextSeq(LinesOf(tokens[..i]))
    {
      if torn { return Err(CorruptLine); }
      NextToken(tokens, i);
      match tokens[i]
      case Bad => torn := true;
      case Good(line) =>
        match line
        case Meta(_, n) => if n > nextSeq { nextSeq := n; }
        case Dec(rec) => if rec.walSeq >= nextSeq { nextSeq := rec.walSeq + 1; }
        case Ack(through) => if through > ackThrough { ackThrough := through; }
    }
    return Ok((ackThrough, nextSeq));
  }

  lemma NextToken(tokens: seq<Token>, i: nat)
    requires i < |tokens|
    ensures var lines := LinesOf(tokens[..i]);
            && (tokens[i].Good? ==> LinesOf(tokens[..i+1]) == lines + [tokens[i].line])
            && (tokens[i].Good? ==> (lines + [tokens[i].line])[..|lines|] == lines)
            && (tokens[i].Bad? ==> LinesOf(tokens[..i+1]) == lines)
  {
    LinesOfAppend(tokens[..i], tokens[i]);
    assert tokens[..i+1] == tokens[..i] + [tokens[i]];
  }

  lemma SchemasOkAppend(lines: seq<Line>, line: Line)
    ensures SchemasOk(lines + [line]) <==> SchemasOk(lines) && SchemaOk(line)
  {
    if SchemasOk(lines + [line]) {
      assert (lines + [line])[|lines|] == line;
      forall i | 0 <= i < |lines| ensures SchemaOk(lines[i]) { assert (lines + [line])[i] == lines[i]; }
    }
  }

  lemma {:induction false} SchemasOkPrefix(tokens: seq<Token>, i: nat)
    requires i <= |tokens| && !SchemasOk(LinesOf(tokens[..i]))
    ensures !SchemasOk(LinesOf(tokens))
    decreases |tokens| - i
  {
    if i == |tokens| {
      assert tokens[..i] == tokens;
    } else {
      NextToken(tokens, i);
      if tokens[i].Good? { SchemasOkAppend(LinesOf(tokens[..i]), tokens[i].line); }
      SchemasOkPrefix(tokens, i + 1);
    }
  }

  /** Second pass: keeps the decisions above the first pass's watermark. */
  method LoadStream(f: File) returns (r: Result<Loaded, LoadError>)
    ensures r == Load(f)
  {
    var marks := ScanWatermarks(f.tokens);
    if marks.Err? { return Err(CorruptLine); }
    var (ackThrough, nextSeq) := marks.value;
    var recs := [];
    assert SchemasOk([]);
    assert LinesOf(f.tokens[..0]) == [] && f.tokens[..|f.tokens|] == f.tokens;
    hide LinesOf;
    hide AckMark;
    hide NextSeq;
    hide SchemasOk;
    for i := 0 to |f.tokens|
      invariant recs == Decs(LinesOf(f.tokens[..i]), ackThrough)
      invariant SchemasOk(LinesOf(f.tokens[..i]))
    {
      NextToken(f.tokens, i);
      if f.tokens[i].Good? {
        var line := f.tokens[i].line;
        SchemasOkAppend(LinesOf(f.tokens[..i]), line);
        if line.Meta? && line.schemaVersion != 0 && line.schemaVersion != WAL_SCHEMA_VERSION {
          SchemasOkPrefix(f.tokens, i + 1);
          return Err(UnsupportedSchema);
        }
        if line.Dec? && line.rec.walSeq > ackThrough {
          recs := recs + [line.rec];
        }
      }
    }
    return Ok(Loaded(recs, nextSeq));
  }
}
