/**
  JSON canonicalisation (RFC 8785): the printer, and a reader for what it prints. Two values print alike exactly when
  they denote the same JSON value, whatever the order their properties were inserted in, at any depth.
 */
module Canonical {
  import opened Text

  // ASCII code units used by the printer.
  const QUOTE: CodeUnit := 34
  const COMMA: CodeUnit := 44
  const COLON: CodeUnit := 58
  const BACKSLASH: CodeUnit := 92
  const OPEN_BRACKET: CodeUnit := 91
  const CLOSE_BRACKET: CodeUnit := 93
  const OPEN_BRACE: CodeUnit := 123
  const CLOSE_BRACE: CodeUnit := 125
  const NULL_TEXT: Str := [110, 117, 108, 108]
  const TRUE_TEXT: Str := [116, 114, 117, 101]
  const FALSE_TEXT: Str := [102, 97, 108, 115, 101]

  /**
    A JavaScript value. A finite number is given by its shortest decimal text, which ECMAScript prints and RFC 8785
    prescribes.
   */
  datatype Json = JNull | JUndefined | JBool(b: bool) | JNumber(text: Str) | JNonFinite | JString(s: Str)
                | JArray(items: seq<Json>) | JObject(props: seq<Prop>)

  /** Properties stand in insertion order. */
  datatype Prop = Prop(key: Str, value: Json)

  /** The JSON value a JavaScript value stands for. */
  datatype Sem = SNull | SBool(b: bool) | SNumber(text: Str) | SString(s: Str) | SArray(items: seq<Sem>)
               | SObject(props: map<Str, Sem>)

  predicate IsNumberUnit(c: CodeUnit) {
    48 <= c <= 57 || c == 45 || c == 43 || c == 46 || c == 101 // digits - + . e
  }

  /** The shape of every finite number's text: number units only, opening with a digit or a minus sign. */
  predicate NumberText(t: Str) {
    t != [] && (48 <= t[0] <= 57 || t[0] == 45) && forall i :: 0 <= i < |t| ==> IsNumberUnit(t[i])
  }

  predicate DistinctKeys(props: seq<Prop>) {
    forall i, j :: 0 <= i < j < |props| ==> props[i].key != props[j].key
  }

  /** Numbers have number texts, and an object has each key once. */
  predicate Valid(v: Json) {
    match v
    case JNumber(t) => NumberText(t)
    case JArray(items) => forall i :: 0 <= i < |items| ==> Valid(items[i])
    case JObject(props) => DistinctKeys(props) && forall i :: 0 <= i < |props| ==> Valid(props[i].value)
    case _ => true
  }

  // ----- Meaning -----

  /** undefined and non-finite numbers count as null; undefined properties do not exist. */
  function Denote(v: Json): Sem
    decreases v, 1
  {
    match v
    case JNull => SNull
    case JUndefined => SNull
    case JNonFinite => SNull
    case JBool(b) => SBool(b)
    case JNumber(t) => SNumber(t)
    case JString(s) => SString(s)
    case JArray(items) => SArray(DenoteAll(items))
    case JObject(props) => SObject(DenoteProps(props))
  }

  function DenoteAll(items: seq<Json>): (r: seq<Sem>)
    ensures |r| == |items|
    decreases items, 0
  {
    if items == [] then [] else DenoteAll(items[..|items|-1]) + [Denote(items[|items|-1])]
  }

  function DenoteProps(props: seq<Prop>): map<Str, Sem>
    decreases props, 0
  {
    if props == [] then map[]
    else
      var m, p := DenoteProps(props[..|props|-1]), props[|props|-1];
      if p.value.JUndefined? then m else m[p.key := Denote(p.value)]
  }

  // ----- Printing -----

  predicate IsHigh(c: CodeUnit) {
    0xd800 <= c <= 0xdbff
  }

  predicate IsLow(c: CodeUnit) {
    0xdc00 <= c <= 0xdfff
  }

  /** No lone surrogate. */
  predicate WellFormed(s: Str) {
    if s == [] then true
    else if IsHigh(s[0]) then |s| >= 2 && IsLow(s[1]) && WellFormed(s[2..])
    else !IsLow(s[0]) && WellFormed(s[1..])
  }

  /** A high surrogate at i has a low one right after it, and a low one has a high one right before it. */
  predicate PairedAt(s: Str, i: nat)
    requires i < |s|
  {
    && (0xd800 <= s[i] <= 0xdbff ==> i + 1 < |s| && 0xdc00 <= s[i+1] <= 0xdfff)
    && (0xdc00 <= s[i] <= 0xdfff ==> i > 0 && 0xd800 <= s[i-1] <= 0xdbff)
  }

  lemma PairedAfter(s: Str, k: nat)
    requires 0 < k <= |s| && !IsHigh(s[k-1])
    ensures forall i: nat :: i < |s| - k ==> PairedAt(s[k..], i) == PairedAt(s, k + i)
  {}

  lemma PairedFirst(s: Str)
    requires s != []
    ensures PairedAt(s, 0) == (if IsHigh(s[0]) then |s| >= 2 && IsLow(s[1]) else !IsLow(s[0]))
  {}

  lemma PairedSecond(s: Str)
    requires |s| >= 2 && IsHigh(s[0]) && IsLow(s[1])
    ensures PairedAt(s, 1)
  {}

  /** The scan accepts exactly the strings whose surrogates stand in pairs. */
  lemma {:induction false} WellFormedIff(s: Str)
    ensures WellFormed(s) <==> forall i: nat :: i < |s| ==> PairedAt(s, i)
  {
    hide PairedAt;
    if s != [] {
      var k := if IsHigh(s[0]) then 2 else 1;
      assert PairedAt(s, 0) == (if k == 2 then |s| >= 2 && IsLow(s[1]) else !IsLow(s[0])) by { PairedFirst(s); }
      if PairedAt(s, 0) {
        if k == 2 { PairedSecond(s); }
        PairedAfter(s, k);
        WellFormedIff(s[k..]);
        if WellFormed(s[k..]) {
          forall i: nat | i < |s| ensures PairedAt(s, i) {
            if i >= k { assert PairedAt(s[k..], i - k); }
          }
        } else {
          var i: nat :| i < |s| - k && !PairedAt(s[k..], i);
          assert !PairedAt(s, k + i);
        }
      }
    }
  }

  /** The check loop: a high surrogate must be followed by a low one, which it skips; a low one on its own fails. */
  method CheckSurrogates(s: Str) returns (ok: bool)
    ensures ok == WellFormed(s)
    ensures ok <==> forall i: nat :: i < |s| ==> PairedAt(s, i)
  {
    WellFormedIff(s);
    hide PairedAt;
    var i := 0;
    assert s[0..] == s;
    while i < |s|
      invariant 0 <= i <= |s| && WellFormed(s[i..]) == WellFormed(s)
    {
      if IsHigh(s[i]) {
        if i + 1 >= |s| || !IsLow(s[i+1]) { return false; }
        assert s[i..][2..] == s[i+2..];
        i := i + 2;
      } else if IsLow(s[i]) {
        return false;
      } else {
        assert s[i..][1..] == s[i+1..];
        i := i + 1;
      }
    }
    return true;
  }

  function Hex(d: int): CodeUnit
    requires 0 <= d < 16
  {
    if d < 10 then 48 + d else 87 + d
  }

  /** JSON.stringify's escapes. */
  function Escape(c: CodeUnit): Str {
    if c == QUOTE then [BACKSLASH, QUOTE]
    else if c == BACKSLASH then [BACKSLASH, BACKSLASH]
    else if c == 8 then [BACKSLASH, 98]
    else if c == 9 then [BACKSLASH, 116]
    else if c == 10 then [BACKSLASH, 110]
    else if c == 12 then [BACKSLASH, 102]
    else if c == 13 then [BACKSLASH, 114]
    else if c < 32 then [BACKSLASH, 117, 48, 48, Hex(c / 16), Hex(c % 16)]
    else [c]
  }

  function Escaped(s: Str): Str {
    if s == [] then [] else Escape(s[0]) + Escaped(s[1..])
  }

  function Quoted(s: Str): Str {
    [QUOTE] + Escaped(s) + [QUOTE]
  }

  datatype Pair = Pair(key: Str, text: Str)

  function Keys(pairs: seq<Pair>): (r: seq<Str>)
    ensures |r| == |pairs| && forall i :: 0 <= i < |r| ==> r[i] == pairs[i].key
  {
    seq(|pairs|, i requires 0 <= i < |pairs| => pairs[i].key)
  }

  function Insert(p: Pair, sorted: seq<Pair>): seq<Pair> {
    if sorted == [] || Less(p.key, sorted[0].key) then [p] + sorted else [sorted[0]] + Insert(p, sorted[1..])
  }

  /** Properties sorted by key, unit by unit. */
  function Sort(pairs: seq<Pair>): seq<Pair> {
    if pairs == [] then [] else Insert(pairs[|pairs|-1], Sort(pairs[..|pairs|-1]))
  }

  function JoinItems(texts: seq<Str>): Str {
    if texts == [] then [] else if |texts| == 1 then texts[0] else texts[0] + [COMMA] + JoinItems(texts[1..])
  }

  function Member(p: Pair): Str {
    Quoted(p.key) + [COLON] + p.text
  }

  function JoinMembers(pairs: seq<Pair>): Str {
    if pairs == [] then []
    else if |pairs| == 1 then Member(pairs[0])
    else Member(pairs[0]) + [COMMA] + JoinMembers(pairs[1..])
  }

  /** The canonical text, or None where canonicalizeString throws on a lone surrogate. */
  function Print(v: Json): Option<Str>
    decreases v, 1
  {
    match v
    case JNull => Some(NULL_TEXT)
    case JUndefined => Some(NULL_TEXT)
    case JNonFinite => Some(NULL_TEXT)
    case JBool(b) => Some(if b then TRUE_TEXT else FALSE_TEXT)
    case JNumber(t) => Some(t)
    case JString(s) => if WellFormed(s) then Some(Quoted(s)) else None
    case JArray(items) =>
      var texts := PrintAll(items);
      if texts.None? then None else Some([OPEN_BRACKET] + JoinItems(texts.value) + [CLOSE_BRACKET])
    case JObject(props) =>
      var pairs := PrintProps(props);
      if pairs.None? then None else Some([OPEN_BRACE] + JoinMembers(Sort(pairs.value)) + [CLOSE_BRACE])
  }

  function PrintAll(items: seq<Json>): (r: Option<seq<Str>>)
    ensures r.Some? ==> |r.value| == |items|
    decreases items, 0
  {
    if items == [] then Some([])
    else
      var before, text := PrintAll(items[..|items|-1]), Print(items[|items|-1]);
      if before.None? || text.None? then None else Some(before.value + [text.value])
  }

  function PrintProps(props: seq<Prop>): Option<seq<Pair>>
    decreases props, 0
  {
    if props == [] then Some([])
    else
      var before, p := PrintProps(props[..|props|-1]), props[|props|-1];
      if p.value.JUndefined? then before
      else
        var text := Print(p.value);
        if before.None? || text.None? || !WellFormed(p.key) then None
        else Some(before.value + [Pair(p.key, text.value)])
  }

  // ----- The key comparator -----

  /** The sort comparator: negative, zero or positive by the first differing unit, then by length. */
  method CompareKeys(a: Str, b: Str) returns (c: int)
    ensures c < 0 <==> Precedes(a, b)
    ensures c > 0 <==> Precedes(b, a)
    ensures c == 0 <==> a == b
  {
    PrecedesTotal(a, b);
    PrecedesTotal(b, a);
    var minLen := if |a| < |b| then |a| else |b|;
    var i := 0;
    while i < minLen
      invariant 0 <= i <= minLen && a[..i] == b[..i]
    {
      if a[i] != b[i] {
        assert PartsBelow(a, b, i) || PartsBelow(b, a, i);
        var x: int, y: int := a[i], b[i];
        return x - y;
      }
      assert a[..i+1] == a[..i] + [a[i]] && b[..i+1] == b[..i] + [b[i]];
      i := i + 1;
    }
    assert |a| < |b| ==> PartsBelow(a, b, i);
    assert |b| < |a| ==> PartsBelow(b, a, i);
    assert |a| == |b| ==> a == a[..i] == b[..i] == b;
    return |a| - |b|;
  }

  // ----- Reading canonical text -----

  function HexValue(c: CodeUnit): Option<int> {
    if 48 <= c <= 57 then Some(c - 48) else if 97 <= c <= 102 then Some(c - 87) else None
  }

  /** The body of a string after its opening quote, and what follows the closing one. */
  function ReadString(s: Str): (r: Option<(Str, Str)>)
    ensures r.Some? ==> |r.value.1| < |s|
  {
    if s == [] then None
    else if s[0] == QUOTE then Some(([], s[1..]))
    else if s[0] < 32 then None
    else if s[0] != BACKSLASH then Prepend(s[0], ReadString(s[1..]))
    else if |s| < 2 then None
    else if s[1] == QUOTE || s[1] == BACKSLASH then Prepend(s[1], ReadString(s[2..]))
    else if s[1] == 98 then Prepend(8, ReadString(s[2..]))
    else if s[1] == 116 then Prepend(9, ReadString(s[2..]))
    else if s[1] == 110 then Prepend(10, ReadString(s[2..]))
    else if s[1] == 102 then Prepend(12, ReadString(s[2..]))
    else if s[1] == 114 then Prepend(13, ReadString(s[2..]))
    else if |s| < 6 || s[1..4] != [117, 48, 48] || HexValue(s[4]).None? || HexValue(s[5]).None? then None
    else Prepend(16 * HexValue(s[4]).value + HexValue(s[5]).value, ReadString(s[6..]))
  }

  function Prepend(c: CodeUnit, r: Option<(Str, Str)>): Option<(Str, Str)> {
    if r.None? then None else Some(([c] + r.value.0, r.value.1))
  }

  function NumberEnd(s: Str): (k: nat)
    ensures k <= |s|
  {
    if s == [] || !IsNumberUnit(s[0]) then 0 else 1 + NumberEnd(s[1..])
  }

  predicate StartsWith(s: Str, p: Str) {
    |p| <= |s| && s[..|p|] == p
  }

  function ReadValue(s: Str): (r: Option<(Sem, Str)>)
    ensures r.Some? ==> |r.value.1| < |s|
    decreases |s|, 1
  {
    if s == [] then None
    else if s[0] == QUOTE then
      var r := ReadString(s[1..]);
      if r.None? then None else Some((SString(r.value.0), r.value.1))
    else if s[0] == OPEN_BRACKET then
      if |s| >= 2 && s[1] == CLOSE_BRACKET then Some((SArray([]), s[2..]))
      else
        var r := ReadItems(s[1..]);
        if r.None? then None else Some((SArray(r.value.0), r.value.1))
    else if s[0] == OPEN_BRACE then
      if |s| >= 2 && s[1] == CLOSE_BRACE then Some((SObject(map[]), s[2..]))
      else
        var r := ReadMembers(s[1..]);
        if r.None? then None else Some((SObject(r.value.0), r.value.1))
    else if StartsWith(s, NULL_TEXT) then Some((SNull, s[4..]))
    else if StartsWith(s, TRUE_TEXT) then Some((SBool(true), s[4..]))
    else if StartsWith(s, FALSE_TEXT) then Some((SBool(false), s[5..]))
    else
      var k := NumberEnd(s);
      if k == 0 then None else Some((SNumber(s[..k]), s[k..]))
  }

  function ReadItems(s: Str): (r: Option<(seq<Sem>, Str)>)
    ensures r.Some? ==> |r.value.1| < |s|
    decreases |s|, 2
  {
    var v := ReadValue(s);
    if v.None? || v.value.1 == [] then None
    else if v.value.1[0] == CLOSE_BRACKET then Some(([v.value.0], v.value.1[1..]))
    else if v.value.1[0] != COMMA then None
    else
      var more := ReadItems(v.value.1[1..]);
      if more.None? then None else Some(([v.value.0] + more.value.0, more.value.1))
  }

  function ReadMembers(s: Str): (r: Option<(map<Str, Sem>, Str)>)
    ensures r.Some? ==> |r.value.1| < |s|
    decreases |s|, 2
  {
    if s == [] || s[0] != QUOTE then None
    else
      var k := ReadString(s[1..]);
      if k.None? || k.value.1 == [] || k.value.1[0] != COLON then None
      else
        var v := ReadValue(k.value.1[1..]);
        if v.None? || v.value.1 == [] then None
        else if v.value.1[0] == CLOSE_BRACE then Some((map[k.value.0 := v.value.0], v.value.1[1..]))
        else if v.value.1[0] != COMMA then None
        else
          var more := ReadMembers(v.value.1[1..]);
          if more.None? then None else Some((more.value.0[k.value.0 := v.value.0], more.value.1))
  }

  // ----- Reading undoes printing -----

  lemma ReadPlain(c: CodeUnit, rest: Str)
    requires c != QUOTE && c != BACKSLASH && c >= 32
    ensures ReadString([c] + rest) == Prepend(c, ReadString(rest))
  {
    assert ([c] + rest)[1..] == rest;
  }

  lemma ReadShort(c: CodeUnit, rest: Str)
    requires |Escape(c)| == 2
    ensures ReadString(Escape(c) + rest) == Prepend(c, ReadString(rest))
  {
    assert (Escape(c) + rest)[2..] == rest;
  }

  lemma HexBack(d: int)
    requires 0 <= d < 16
    ensures HexValue(Hex(d)) == Some(d)
  {}

  lemma ReadHexUnits(x: CodeUnit, y: CodeUnit, rest: Str)
    requires HexValue(x).Some? && HexValue(y).Some?
    ensures 0 <= 16 * HexValue(x).value + HexValue(y).value < 256
    ensures ReadString([BACKSLASH, 117, 48, 48, x, y] + rest) ==
            Prepend(16 * HexValue(x).value + HexValue(y).value, ReadString(rest))
  {
    assert 0 <= HexValue(x).value < 16 && 0 <= HexValue(y).value < 16;
    hide HexValue;
    var s := [BACKSLASH, 117, 48, 48, x, y] + rest;
    assert s[6..] == rest && s[4] == x && s[5] == y && s[1..4] == [117, 48, 48];
  }

  lemma ReadHex(c: CodeUnit, rest: Str)
    requires c < 32
    ensures ReadString([BACKSLASH, 117, 48, 48, Hex(c / 16), Hex(c % 16)] + rest) == Prepend(c, ReadString(rest))
  {
    hide ReadString;
    hide Hex;
    hide HexValue;
    HexBack(c / 16);
    HexBack(c % 16);
    ReadHexUnits(Hex(c / 16), Hex(c % 16), rest);
    assert c == 16 * (c / 16) + c % 16;
  }

  lemma ReadEscape(c: CodeUnit, rest: Str)
    ensures ReadString(Escape(c) + rest) == Prepend(c, ReadString(rest))
  {
    hide ReadString;
    hide Hex;
    if |Escape(c)| == 2 {
      ReadShort(c, rest);
    } else if c < 32 {
      ReadHex(c, rest);
    } else {
      ReadPlain(c, rest);
    }
  }

  lemma {:induction false} ReadEscaped(s: Str, rest: Str)
    ensures ReadString(Escaped(s) + [QUOTE] + rest) == Some((s, rest))
  {
    if s == [] {
      assert ([] + [QUOTE] + rest)[1..] == rest;
    } else {
      var tail := Escaped(s[1..]) + [QUOTE] + rest;
      assert Escaped(s) + [QUOTE] + rest == Escape(s[0]) + tail;
      ReadEscape(s[0], tail);
      ReadEscaped(s[1..], rest);
      assert [s[0]] + s[1..] == s;
    }
  }

  lemma ReadsEmpty(s: Str)
    requires ReadString(s) == Some(([], []))
    ensures s == [QUOTE]
  {
    assert s[0] == QUOTE && s[1..] == [];
  }

  lemma PrependOne(c: CodeUnit, d: CodeUnit, r: Option<(Str, Str)>)
    requires Prepend(d, r) == Some(([c], []))
    ensures c == d && r == Some(([], []))
  {
    assert ([d] + r.value.0)[0] == d && |[d] + r.value.0| == 1 + |r.value.0|;
  }

  lemma HexUnique(x: CodeUnit)
    requires HexValue(x).Some?
    ensures 0 <= HexValue(x).value < 16 && Hex(HexValue(x).value) == x
  {}

  lemma PlainForm(c: CodeUnit, s: Str)
    requires s != [] && s[0] != BACKSLASH && ReadString(s) == Some(([c], []))
    ensures s == Escape(c) + [QUOTE]
  {
    hide Hex;
    PrependOne(c, s[0], ReadString(s[1..]));
    ReadsEmpty(s[1..]);
    assert s == [s[0]] + s[1..];
  }

  lemma ShortForm(c: CodeUnit, s: Str)
    requires |s| >= 2 && s[0] == BACKSLASH && s[1] in [QUOTE, BACKSLASH, 98, 116, 110, 102, 114]
    requires ReadString(s) == Some(([c], []))
    ensures s == Escape(c) + [QUOTE]
  {
    var d: CodeUnit := if s[1] == QUOTE || s[1] == BACKSLASH then s[1] else if s[1] == 98 then 8
      else if s[1] == 116 then 9 else if s[1] == 110 then 10 else if s[1] == 102 then 12 else 13;
    PrependOne(c, d, ReadString(s[2..]));
    ReadsEmpty(s[2..]);
    assert s == [BACKSLASH, s[1]] + s[2..];
  }

  lemma LongUnits(c: CodeUnit, s: Str)
    requires s != [] && s[0] == BACKSLASH && (|s| < 2 || s[1] !in [QUOTE, BACKSLASH, 98, 116, 110, 102, 114])
    requires ReadString(s) == Some(([c], []))
    ensures |s| == 7 && s[1..4] == [117, 48, 48] && s[6] == QUOTE && HexValue(s[4]).Some? && HexValue(s[5]).Some?
    ensures c == 16 * HexValue(s[4]).value + HexValue(s[5]).value
  {
    hide HexValue;
    PrependOne(c, 16 * HexValue(s[4]).value + HexValue(s[5]).value, ReadString(s[6..]));
    ReadsEmpty(s[6..]);
    assert s[6] == s[6..][0] && |s| == 6 + |s[6..]|;
  }

  lemma LongForm(c: CodeUnit, s: Str)
    requires s != [] && s[0] == BACKSLASH && (|s| < 2 || s[1] !in [QUOTE, BACKSLASH, 98, 116, 110, 102, 114])
    requires ReadString(s) == Some(([c], []))
    ensures |s| == 7 && |Escape(c)| <= 6 && (|Escape(c)| == 6 ==> s == Escape(c) + [QUOTE])
  {
    hide Hex;
    hide HexValue;
    hide ReadString;
    LongUnits(c, s);
    HexUnique(s[4]);
    HexUnique(s[5]);
    assert c / 16 == HexValue(s[4]).value && c % 16 == HexValue(s[5]).value;
    assert s[1] == s[1..4][0] && s[2] == s[1..4][1] && s[3] == s[1..4][2];
    assert s == [s[0], s[1], s[2], s[3], s[4], s[5]] + [s[6]];
  }

  /**
    The escapes are the shortest ones: no literal body that reads as the unit c is shorter, and none of the same length
    is another.
   */
  lemma EscapeShortest(c: CodeUnit, t: Str)
    requires ReadString(t + [QUOTE]) == Some(([c], []))
    ensures |Escape(c)| <= |t| && (|t| == |Escape(c)| ==> t == Escape(c))
  {
    hide ReadString;
    hide Escape;
    var s := t + [QUOTE];
    if s[0] != BACKSLASH {
      PlainForm(c, s);
    } else if |s| >= 2 && s[1] in [QUOTE, BACKSLASH, 98, 116, 110, 102, 114] {
      ShortForm(c, s);
    } else {
      LongForm(c, s);
    }
    assert t == s[..|s|-1];
  }

  /** What may follow a value: nothing, or a unit no number continues with. */
  predicate Delimits(rest: Str) {
    rest == [] || !IsNumberUnit(rest[0])
  }

  /** text reads back as sem wherever it stands. */
  ghost predicate Reads(text: Str, sem: Sem) {
    text != [] && text[0] != CLOSE_BRACKET && forall rest :: Delimits(rest) ==>
      ReadValue(text + rest) == Some((sem, rest))
  }

  lemma ReadsAt(text: Str, sem: Sem, rest: Str)
    requires Reads(text, sem) && Delimits(rest)
    ensures text != [] && text[0] != CLOSE_BRACKET && ReadValue(text + rest) == Some((sem, rest))
  {
  }

  lemma {:induction false} NumberEndIs(t: Str, rest: Str)
    requires (forall i :: 0 <= i < |t| ==> IsNumberUnit(t[i])) && Delimits(rest)
    ensures NumberEnd(t + rest) == |t|
  {
    if t != [] {
      NumberEndIs(t[1..], rest);
      assert (t + rest)[1..] == t[1..] + rest;
    } else {
      assert t + rest == rest;
    }
  }

  lemma ReadsNumber(t: Str)
    requires NumberText(t)
    ensures Reads(t, SNumber(t))
  {
    forall rest | Delimits(rest) ensures ReadValue(t + rest) == Some((SNumber(t), rest)) {
      var s := t + rest;
      NumberEndIs(t, rest);
      assert (|s| >= 4 ==> s[..4][0] == t[0]) && (|s| >= 5 ==> s[..5][0] == t[0]);
      assert s[..|t|] == t && s[|t|..] == rest;
    }
  }

  lemma ReadsString(s: Str)
    ensures Reads(Quoted(s), SString(s))
  {
    forall rest | Delimits(rest) ensures ReadValue(Quoted(s) + rest) == Some((SString(s), rest)) {
      assert (Quoted(s) + rest)[1..] == Escaped(s) + [QUOTE] + rest;
      ReadEscaped(s, rest);
    }
  }

  lemma ReadsWord(word: Str, sem: Sem)
    requires (word, sem) == (NULL_TEXT, SNull) || (word, sem) == (TRUE_TEXT, SBool(true)) ||
             (word, sem) == (FALSE_TEXT, SBool(false))
    ensures Reads(word, sem)
  {
    forall rest | Delimits(rest) ensures ReadValue(word + rest) == Some((sem, rest)) {
      var s := word + rest;
      assert s[..|word|] == word && s[|word|..] == rest;
      if word != NULL_TEXT { assert s[..4][0] == word[0]; }
      if word == FALSE_TEXT { assert s[..4][0] == word[0]; }
    }
  }

  lemma {:induction false} ReadsItems(texts: seq<Str>, sems: seq<Sem>, rest: Str)
    requires |texts| == |sems| && texts != [] && forall i :: 0 <= i < |texts| ==> Reads(texts[i], sems[i])
    ensures ReadItems(JoinItems(texts) + [CLOSE_BRACKET] + rest) == Some((sems, rest))
    decreases |texts|
  {
    hide ReadValue;
    hide Reads;
    var s := JoinItems(texts) + [CLOSE_BRACKET] + rest;
    assert Reads(texts[0], sems[0]);
    if |texts| == 1 {
      var after := [CLOSE_BRACKET] + rest;
      assert s == texts[0] + after && after[1..] == rest;
      ReadsAt(texts[0], sems[0], after);
      assert [sems[0]] == sems;
    } else {
      ReadsItems(texts[1..], sems[1..], rest);
      var tail := JoinItems(texts[1..]) + [CLOSE_BRACKET] + rest;
      var after := [COMMA] + tail;
      assert s == texts[0] + after && after[1..] == tail;
      ReadsAt(texts[0], sems[0], after);
      assert [sems[0]] + sems[1..] == sems;
    }
  }

  ghost predicate PairReads(p: Pair, m: map<Str, Sem>) {
    p.key in m && Reads(p.text, m[p.key])
  }

  /** The part of m named by the pairs. */
  function Select(m: map<Str, Sem>, pairs: seq<Pair>): map<Str, Sem>
  {
    map k | k in m && k in Keys(pairs) :: m[k]
  }

  lemma ReadsMember(p: Pair, m: map<Str, Sem>, after: Str)
    requires PairReads(p, m) && Delimits(after)
    ensures var s := Member(p) + after;
            && s != [] && s[0] == QUOTE
            && ReadString(s[1..]) == Some((p.key, [COLON] + p.text + after))
            && ReadValue(p.text + after) == Some((m[p.key], after))
  {
    ReadsAt(p.text, m[p.key], after);
    hide ReadString;
    hide ReadValue;
    hide Reads;
    var tail := [COLON] + p.text + after;
    QuotedTail(p.key, tail);
    hide Quoted;
    assert Member(p) + after == Quoted(p.key) + tail;
    ReadEscaped(p.key, tail);
  }

  lemma QuotedTail(s: Str, rest: Str)
    ensures |Quoted(s)| > 0 && Quoted(s)[0] == QUOTE && (Quoted(s) + rest)[1..] == Escaped(s) + [QUOTE] + rest
  {
    hide Escaped;
  }

  lemma ReadLastMember(p: Pair, m: map<Str, Sem>, rest: Str)
    requires PairReads(p, m)
    ensures ReadMembers(Member(p) + ([CLOSE_BRACE] + rest)) == Some((map[p.key := m[p.key]], rest))
  {
    hide ReadValue;
    hide ReadString;
    hide Member;
    hide Reads;
    var after := [CLOSE_BRACE] + rest;
    ReadsMember(p, m, after);
    assert ([COLON] + p.text + after)[1..] == p.text + after && after[1..] == rest;
  }

  lemma ReadNextMember(p: Pair, m: map<Str, Sem>, tail: Str)
    requires PairReads(p, m) && ReadMembers(tail).Some?
    ensures ReadMembers(Member(p) + ([COMMA] + tail)) ==
            Some((ReadMembers(tail).value.0[p.key := m[p.key]], ReadMembers(tail).value.1))
  {
    hide ReadValue;
    hide ReadString;
    hide Member;
    hide Reads;
    var after := [COMMA] + tail;
    ReadsMember(p, m, after);
    assert ([COLON] + p.text + after)[1..] == p.text + after && after[1..] == tail;
  }

  lemma SelectNext(m: map<Str, Sem>, pairs: seq<Pair>)
    requires pairs != [] && pairs[0].key in m
    ensures Select(m, pairs) == Select(m, pairs[1..])[pairs[0].key := m[pairs[0].key]]
  {
    assert Keys(pairs) == [pairs[0].key] + Keys(pairs[1..]);
  }

  lemma JoinNext(pairs: seq<Pair>, end: Str)
    requires |pairs| > 1
    ensures JoinMembers(pairs) + end == Member(pairs[0]) + ([COMMA] + (JoinMembers(pairs[1..]) + end))
  {
    assert JoinMembers(pairs) == Member(pairs[0]) + [COMMA] + JoinMembers(pairs[1..]);
    hide Member;
    hide JoinMembers;
    Regroup(Member(pairs[0]), [COMMA], JoinMembers(pairs[1..]), end);
  }

  lemma Regroup(a: Str, b: Str, c: Str, d: Str)
    ensures (a + b + c) + d == a + (b + (c + d))
  {
  }

  lemma {:induction false} ReadsMembers(pairs: seq<Pair>, m: map<Str, Sem>, rest: Str)
    requires pairs != [] && forall i :: 0 <= i < |pairs| ==> PairReads(pairs[i], m)
    ensures ReadMembers(JoinMembers(pairs) + ([CLOSE_BRACE] + rest)) == Some((Select(m, pairs), rest))
    decreases |pairs|
  {
    var p, end := pairs[0], [CLOSE_BRACE] + rest;
    assert PairReads(p, m) && p.key in m;
    assert |pairs| == 1 ==> JoinMembers(pairs) == Member(p) && pairs[1..] == [];
    assert Select(m, []) == map[];
    SelectNext(m, pairs);
    hide ReadMembers;
    hide Member;
    hide JoinMembers;
    hide PairReads;
    hide Select;
    if |pairs| == 1 {
      ReadLastMember(p, m, rest);
    } else {
      ReadsMembers(pairs[1..], m, rest);
      ReadNextMember(p, m, JoinMembers(pairs[1..]) + end);
      JoinNext(pairs, end);
    }
  }

  lemma {:induction false} InsertMembers(p: Pair, sorted: seq<Pair>)
    ensures |Insert(p, sorted)| == |sorted| + 1
    ensures forall q :: q in Insert(p, sorted) <==> q == p || q in sorted
  {
    if !(sorted == [] || Less(p.key, sorted[0].key)) {
      InsertMembers(p, sorted[1..]);
      assert sorted == [sorted[0]] + sorted[1..];
    }
  }

  lemma {:induction false} SortMembers(pairs: seq<Pair>)
    ensures |Sort(pairs)| == |pairs| && forall q :: q in Sort(pairs) <==> q in pairs
  {
    if pairs != [] {
      var last := |pairs| - 1;
      SortMembers(pairs[..last]);
      InsertMembers(pairs[last], Sort(pairs[..last]));
      assert pairs == pairs[..last] + [pairs[last]];
    }
  }

  predicate PairOf(p: Prop, q: Pair) {
    !p.value.JUndefined? && q.key == p.key && Print(p.value) == Some(q.text)
  }

  /** The property exists under this key. */
  predicate Names(p: Prop, k: Str) {
    !p.value.JUndefined? && p.key == k
  }

  /** The printed properties are exactly the defined ones, each under its own key, with its own text. */
  lemma {:induction false} PrintPropsPairs(props: seq<Prop>)
    requires PrintProps(props).Some?
    ensures forall q :: q in PrintProps(props).value <==> exists i :: 0 <= i < |props| && PairOf(props[i], q)
    ensures forall i :: 0 <= i < |props| && !props[i].value.JUndefined? ==>
            WellFormed(props[i].key) && Print(props[i].value).Some?
  {
    if props != [] {
      var last := |props| - 1;
      PrintPropsPairs(props[..last]);
      var pairs := PrintProps(props).value;
      forall q ensures q in pairs <==> exists i :: 0 <= i < |props| && PairOf(props[i], q)
      {
        if i :| 0 <= i < |props| && PairOf(props[i], q) {
          if i < last { assert PairOf(props[..last][i], q); }
        }
        if q in pairs {
          if q in PrintProps(props[..last]).value {
            var i :| 0 <= i < last && PairOf(props[..last][i], q);
            assert PairOf(props[i], q);
          } else {
            assert PairOf(props[last], q);
          }
        }
      }
      forall i | 0 <= i < |props| && !props[i].value.JUndefined?
        ensures WellFormed(props[i].key) && Print(props[i].value).Some?
      {
        if i < last { assert props[..last][i] == props[i]; }
      }
    }
  }

  lemma {:induction false} DenotePropsMap(props: seq<Prop>)
    requires DistinctKeys(props)
    ensures forall i :: 0 <= i < |props| && !props[i].value.JUndefined? ==>
              props[i].key in DenoteProps(props) && DenoteProps(props)[props[i].key] == Denote(props[i].value)
    ensures forall k :: k in DenoteProps(props) ==> exists i :: 0 <= i < |props| && Names(props[i], k)
  {
    if props != [] {
      var last := |props| - 1;
      DenotePropsMap(props[..last]);
      forall i | 0 <= i < |props| && !props[i].value.JUndefined?
        ensures props[i].key in DenoteProps(props) && DenoteProps(props)[props[i].key] == Denote(props[i].value)
      {
        if i < last { assert props[..last][i] == props[i]; }
      }
      forall k | k in DenoteProps(props) ensures exists i :: 0 <= i < |props| && Names(props[i], k) {
        if k in DenoteProps(props[..last]) {
          var i :| 0 <= i < last && Names(props[..last][i], k);
          assert Names(props[i], k);
        } else {
          assert Names(props[last], k);
        }
      }
    }
  }

  lemma {:induction false} PrintAllTexts(items: seq<Json>)
    requires PrintAll(items).Some?
    ensures forall i :: 0 <= i < |items| ==>
            Print(items[i]) == Some(PrintAll(items).value[i]) && DenoteAll(items)[i] == Denote(items[i])
  {
    if items != [] {
      var last := |items| - 1;
      PrintAllTexts(items[..last]);
      forall i | 0 <= i < |items|
        ensures Print(items[i]) == Some(PrintAll(items).value[i]) && DenoteAll(items)[i] == Denote(items[i])
      {
        if i < last { assert items[..last][i] == items[i]; }
      }
    }
  }

  /** Reading the canonical text of a value gives back exactly what the value denotes. */
  lemma {:induction false} ReadsPrinted(v: Json)
    requires Valid(v) && Print(v).Some?
    ensures Reads(Print(v).value, Denote(v))
    decreases v
  {
    match v
    case JNull => ReadsWord(NULL_TEXT, SNull);
    case JUndefined => ReadsWord(NULL_TEXT, SNull);
    case JNonFinite => ReadsWord(NULL_TEXT, SNull);
    case JBool(b) => if b { ReadsWord(TRUE_TEXT, SBool(true)); } else { ReadsWord(FALSE_TEXT, SBool(false)); }
    case JNumber(t) => ReadsNumber(t);
    case JString(s) => ReadsString(s);
    case JArray(items) =>
      PrintAllTexts(items);
      var texts := PrintAll(items).value;
      forall i | 0 <= i < |items| ensures Reads(texts[i], DenoteAll(items)[i]) { ReadsPrinted(items[i]); }
      ReadsArray(texts, DenoteAll(items));
    case JObject(props) =>
      PrintPropsPairs(props);
      DenotePropsMap(props);
      var pairs, m := PrintProps(props).value, DenoteProps(props);
      forall q | q in pairs ensures PairReads(q, m) {
        var i :| 0 <= i < |props| && PairOf(props[i], q);
        ReadsPrinted(props[i].value);
      }
      forall k | k in m ensures exists q :: q in pairs && q.key == k {
        var i :| 0 <= i < |props| && Names(props[i], k);
        assert PairOf(props[i], Pair(k, Print(props[i].value).value));
      }
      ReadsObject(pairs, m);
  }

  lemma ReadsArray(texts: seq<Str>, sems: seq<Sem>)
    requires |texts| == |sems| && forall i :: 0 <= i < |texts| ==> Reads(texts[i], sems[i])
    ensures Reads([OPEN_BRACKET] + JoinItems(texts) + [CLOSE_BRACKET], SArray(sems))
  {
    var text := [OPEN_BRACKET] + JoinItems(texts) + [CLOSE_BRACKET];
    forall rest | Delimits(rest) ensures ReadValue(text + rest) == Some((SArray(sems), rest)) {
      ReadsArrayAt(texts, sems, rest);
    }
  }

  lemma ReadsArrayAt(texts: seq<Str>, sems: seq<Sem>, rest: Str)
    requires |texts| == |sems| && forall i :: 0 <= i < |texts| ==> Reads(texts[i], sems[i])
    ensures ReadValue([OPEN_BRACKET] + JoinItems(texts) + [CLOSE_BRACKET] + rest) == Some((SArray(sems), rest))
  {
    assert texts != [] ==> Reads(texts[0], sems[0]) && texts[0] != [] && texts[0][0] != CLOSE_BRACKET;
    hide Reads;
    hide ReadValue;
    hide ReadItems;
    var body := JoinItems(texts) + [CLOSE_BRACKET] + rest;
    assert [OPEN_BRACKET] + JoinItems(texts) + [CLOSE_BRACKET] + rest == [OPEN_BRACKET] + body;
    if texts == [] {
      assert sems == [];
      ReadEmptyArray(rest);
    } else {
      ReadsItems(texts, sems, rest);
      assert body[0] == texts[0][0];
      ReadArray(body);
    }
  }

  lemma ReadEmptyArray(rest: Str)
    ensures ReadValue([OPEN_BRACKET] + ([] + [CLOSE_BRACKET] + rest)) == Some((SArray([]), rest))
  {
    var s := [OPEN_BRACKET] + ([] + [CLOSE_BRACKET] + rest);
    assert s[2..] == rest;
  }

  lemma ReadArray(body: Str)
    requires body != [] && body[0] != CLOSE_BRACKET && ReadItems(body).Some?
    ensures ReadValue([OPEN_BRACKET] + body) == Some((SArray(ReadItems(body).value.0), ReadItems(body).value.1))
  {
    hide ReadItems;
    assert ([OPEN_BRACKET] + body)[1..] == body;
  }

  lemma ReadsObject(pairs: seq<Pair>, m: map<Str, Sem>)
    requires forall q :: q in pairs ==> PairReads(q, m)
    requires forall k :: k in m ==> exists q :: q in pairs && q.key == k
    ensures Reads([OPEN_BRACE] + JoinMembers(Sort(pairs)) + [CLOSE_BRACE], SObject(m))
  {
    SortMembers(pairs);
    var sorted := Sort(pairs);
    assert forall i :: 0 <= i < |sorted| ==> sorted[i] in pairs;
    assert Select(m, sorted) == m by {
      forall k | k in m ensures k in Keys(sorted) {
        var q :| q in pairs && q.key == k;
        var i :| 0 <= i < |sorted| && sorted[i] == q;
        assert Keys(sorted)[i] == k;
      }
    }
    ReadsSorted(sorted, m);
  }

  lemma ReadsSorted(sorted: seq<Pair>, m: map<Str, Sem>)
    requires (forall i :: 0 <= i < |sorted| ==> PairReads(sorted[i], m)) && Select(m, sorted) == m
    ensures Reads([OPEN_BRACE] + JoinMembers(sorted) + [CLOSE_BRACE], SObject(m))
  {
    var text := [OPEN_BRACE] + JoinMembers(sorted) + [CLOSE_BRACE];
    forall rest | Delimits(rest) ensures ReadValue(text + rest) == Some((SObject(m), rest)) {
      ReadsSortedAt(sorted, m, rest);
    }
  }

  lemma ReadsSortedAt(sorted: seq<Pair>, m: map<Str, Sem>, rest: Str)
    requires (forall i :: 0 <= i < |sorted| ==> PairReads(sorted[i], m)) && Select(m, sorted) == m
    ensures ReadValue([OPEN_BRACE] + JoinMembers(sorted) + [CLOSE_BRACE] + rest) == Some((SObject(m), rest))
  {
    hide ReadValue;
    hide ReadMembers;
    hide PairReads;
    var body := JoinMembers(sorted) + ([CLOSE_BRACE] + rest);
    assert [OPEN_BRACE] + JoinMembers(sorted) + [CLOSE_BRACE] + rest == [OPEN_BRACE] + body;
    if sorted == [] {
      assert m == map[];
      ReadEmptyObject(rest);
    } else {
      ReadsMembers(sorted, m, rest);
      MemberOpens(sorted[0]);
      assert body[0] == Member(sorted[0])[0];
      ReadObject(body);
    }
  }

  lemma MemberOpens(p: Pair)
    ensures Member(p) != [] && Member(p)[0] == QUOTE
  {
  }

  lemma ReadEmptyObject(rest: Str)
    ensures ReadValue([OPEN_BRACE] + ([] + ([CLOSE_BRACE] + rest))) == Some((SObject(map[]), rest))
  {
    var s := [OPEN_BRACE] + ([] + ([CLOSE_BRACE] + rest));
    assert s[2..] == rest;
  }

  lemma ReadObject(body: Str)
    requires body != [] && body[0] != CLOSE_BRACE && ReadMembers(body).Some?
    ensures ReadValue([OPEN_BRACE] + body) == Some((SObject(ReadMembers(body).value.0), ReadMembers(body).value.1))
  {
    hide ReadMembers;
    assert ([OPEN_BRACE] + body)[1..] == body;
  }

  // ----- Printing depends on the meaning alone -----

  lemma IncreasingCons(p: Pair, rest: seq<Pair>)
    requires Increasing(Keys(rest)) && forall q :: q in rest ==> Less(p.key, q.key)
    ensures Increasing(Keys([p] + rest))
  {
    hide Less;
    var r := [p] + rest;
    forall i, j | 0 <= i < j < |r| ensures Less(Keys(r)[i], Keys(r)[j]) {
      assert r[j] == rest[j-1] && Keys(r)[j] == Keys(rest)[j-1];
      if i > 0 { assert Keys(r)[i] == Keys(rest)[i-1]; }
    }
  }

  lemma IncreasingTail(sorted: seq<Pair>)
    requires sorted != [] && Increasing(Keys(sorted))
    ensures Increasing(Keys(sorted[1..])) && forall q :: q in sorted[1..] ==> Less(sorted[0].key, q.key)
  {
    hide Less;
    assert Keys(sorted[1..]) == Keys(sorted)[1..];
    forall q | q in sorted[1..] ensures Less(sorted[0].key, q.key) {
      var k :| 1 <= k < |sorted| && sorted[k] == q;
      assert Less(Keys(sorted)[0], Keys(sorted)[k]);
    }
  }

  lemma {:induction false} InsertIncreasing(p: Pair, sorted: seq<Pair>)
    requires Increasing(Keys(sorted)) && forall q :: q in sorted ==> q.key != p.key
    ensures Increasing(Keys(Insert(p, sorted)))
  {
    if sorted != [] {
      LessTotal(p.key, sorted[0].key);
      hide Less;
      hide Increasing;
      IncreasingTail(sorted);
      var first, tail := sorted[0], sorted[1..];
      assert sorted == [first] + tail;
      if Less(p.key, first.key) {
        forall q | q in sorted ensures Less(p.key, q.key) {
          if q != first { LessTransitive(p.key, first.key, q.key); }
        }
        IncreasingCons(p, sorted);
      } else {
        InsertIncreasing(p, tail);
        InsertMembers(p, tail);
        IncreasingCons(first, Insert(p, tail));
      }
    }
  }

  predicate DistinctPairs(pairs: seq<Pair>) {
    forall i, j :: 0 <= i < j < |pairs| ==> pairs[i].key != pairs[j].key
  }

  lemma {:induction false} SortIncreasing(pairs: seq<Pair>)
    requires DistinctPairs(pairs)
    ensures Increasing(Keys(Sort(pairs)))
  {
    if pairs != [] {
      var last := |pairs| - 1;
      SortIncreasing(pairs[..last]);
      SortMembers(pairs[..last]);
      forall q | q in Sort(pairs[..last]) ensures q.key != pairs[last].key {
        assert q in pairs[..last];
      }
      InsertIncreasing(pairs[last], Sort(pairs[..last]));
    }
  }

  /** Two listings of the same pairs sort to the same sequence. */
  lemma SortUnique(a: seq<Pair>, b: seq<Pair>)
    requires DistinctPairs(a) && DistinctPairs(b) && forall q :: q in a <==> q in b
    ensures Sort(a) == Sort(b)
  {
    hide Less;
    hide Sort;
    SortIncreasing(a);
    SortIncreasing(b);
    SortMembers(a);
    SortMembers(b);
    var x, y := Sort(a), Sort(b);
    forall k ensures k in Keys(x) <==> k in Keys(y) {
      if k in Keys(x) {
        var i :| 0 <= i < |x| && Keys(x)[i] == k;
        assert x[i] in y;
        var j :| 0 <= j < |y| && y[j] == x[i];
        assert Keys(y)[j] == k;
      }
      if k in Keys(y) {
        var i :| 0 <= i < |y| && Keys(y)[i] == k;
        assert y[i] in x;
        var j :| 0 <= j < |x| && x[j] == y[i];
        assert Keys(x)[j] == k;
      }
    }
    IncreasingUnique(Keys(x), Keys(y));
    forall i | 0 <= i < |x| ensures x[i] == y[i] {
      assert x[i] in y;
      var j :| 0 <= j < |y| && y[j] == x[i];
      assert Keys(x)[i] == Keys(y)[i] && Keys(y)[j] == Keys(x)[i];
      if i < j { assert Less(Keys(y)[i], Keys(y)[j]); LessIrreflexive(Keys(y)[i]); }
      if j < i { assert Less(Keys(y)[j], Keys(y)[i]); LessIrreflexive(Keys(y)[i]); }
    }
  }

  lemma {:induction false} PrintPropsDistinct(props: seq<Prop>)
    requires DistinctKeys(props) && PrintProps(props).Some?
    ensures DistinctPairs(PrintProps(props).value)
  {
    if props != [] {
      var last := |props| - 1;
      PrintPropsDistinct(props[..last]);
      PrintPropsPairs(props[..last]);
      var before := PrintProps(props[..last]).value;
      forall i | 0 <= i < |before| ensures before[i].key != props[last].key {
        assert before[i] in before;
        var k :| 0 <= k < last && PairOf(props[..last][k], before[i]);
        assert props[k].key != props[last].key;
      }
    }
  }

  /**
    An object prints its defined properties, each once under its own key, with the keys rising: every key is a proper
    prefix of the next, or has the smaller unit where the two first differ.
   */
  lemma ObjectKeysRise(props: seq<Prop>) returns (pairs: seq<Pair>)
    requires DistinctKeys(props) && Print(JObject(props)).Some?
    ensures Print(JObject(props)).value == [OPEN_BRACE] + JoinMembers(pairs) + [CLOSE_BRACE]
    ensures forall q :: q in pairs <==> exists i :: 0 <= i < |props| && PairOf(props[i], q)
    ensures forall i, j :: 0 <= i < j < |pairs| ==> Precedes(pairs[i].key, pairs[j].key)
  {
    hide Less;
    hide Sort;
    hide Precedes;
    var printed := PrintProps(props).value;
    pairs := Sort(printed);
    PrintPropsPairs(props);
    PrintPropsDistinct(props);
    SortMembers(printed);
    SortIncreasing(printed);
    forall i, j | 0 <= i < j < |pairs| ensures Precedes(pairs[i].key, pairs[j].key) {
      assert Less(Keys(pairs)[i], Keys(pairs)[j]);
      LessIff(pairs[i].key, pairs[j].key);
    }
  }

  lemma PrintAllNext(items: seq<Json>, v: Json, texts: seq<Str>, text: Str)
    requires PrintAll(items) == Some(texts) && Print(v) == Some(text)
    ensures PrintAll(items + [v]) == Some(texts + [text])
  {
    assert (items + [v])[..|items + [v]|-1] == items;
  }

  lemma PrintPropsNext(props: seq<Prop>, p: Prop, pairs: seq<Pair>, q: Pair)
    requires PrintProps(props) == Some(pairs) && WellFormed(p.key)
    ensures p.value.JUndefined? ==> PrintProps(props + [p]) == Some(pairs)
    ensures PairOf(p, q) ==> PrintProps(props + [p]) == Some(pairs + [q])
  {
    assert (props + [p])[..|props + [p]|-1] == props;
  }

  lemma ListExample()
    ensures Print(JArray([JBool(true), JNull])) == Some([91, 116, 114, 117, 101, 44, 110, 117, 108, 108, 93])
  {
    PrintAllNext([], JBool(true), [], TRUE_TEXT);
    PrintAllNext([] + [JBool(true)], JNull, [] + [TRUE_TEXT], NULL_TEXT);
    assert [] + [JBool(true)] + [JNull] == [JBool(true), JNull];
    var texts: seq<Str> := [TRUE_TEXT, NULL_TEXT];
    assert [] + [TRUE_TEXT] + [NULL_TEXT] == texts;
    assert texts[1..] == [NULL_TEXT];
    assert JoinItems(texts) == TRUE_TEXT + [COMMA] + NULL_TEXT;
    assert Print(JArray([JBool(true), JNull])).value == [91, 116, 114, 117, 101, 44, 110, 117, 108, 108, 93];
  }

  lemma PropsExample()
    ensures PrintProps([Prop([98], JArray([JBool(true), JNull])), Prop([99], JUndefined), Prop([97], JString([34]))])
         == Some([Pair([98], [91, 116, 114, 117, 101, 44, 110, 117, 108, 108, 93]), Pair([97], [34, 92, 34, 34])])
  {
    ListExample();
    assert Quoted([34]) == [34, 92, 34, 34] by {
      assert [34][1..] == [] && Escaped([]) == [];
    }
    var b, c, a := Prop([98], JArray([JBool(true), JNull])), Prop([99], JUndefined), Prop([97], JString([34]));
    var pb, pa := Pair([98], Print(b.value).value), Pair([97], Quoted([34]));
    PrintPropsNext([], b, [], pb);
    PrintPropsNext([] + [b], c, [] + [pb], pb);
    PrintPropsNext([] + [b] + [c], a, [] + [pb], pa);
    assert [] + [b] + [c] + [a] == [b, c, a] && [] + [pb] + [pa] == [pb, pa];
  }

  lemma MembersExample(pa: Pair, pb: Pair)
    requires pa.key == [97] && pb.key == [98]
    ensures JoinMembers(Sort([pb, pa])) == [34, 97, 34, 58] + pa.text + [44, 34, 98, 34, 58] + pb.text
  {
    assert Sort([pb, pa]) == [pa, pb] by {
      assert [pb, pa][..1] == [pb] && [pb][..0] == [];
      assert Sort([pb]) == [pb];
    }
    assert [pa, pb][1..] == [pb];
    assert JoinMembers([pa, pb]) == Member(pa) + [COMMA] + Member(pb);
    assert Escaped([97]) == [97] && Escaped([98]) == [98];
  }

  lemma ObjectText(a: Str, b: Str)
    requires a == [34, 92, 34, 34] && b == [91, 116, 114, 117, 101, 44, 110, 117, 108, 108, 93]
    ensures [123] + ([34, 97, 34, 58] + a + [44, 34, 98, 34, 58] + b) + [125] ==
            [123, 34, 97, 34, 58, 34, 92, 34, 34, 44, 34, 98, 34, 58, 91, 116, 114, 117, 101, 44,
             110, 117, 108, 108, 93, 125]
  {}

  /** The object b: [true, null], a: a quote, printed: {"a":"\"","b":[true,null]}. */
  lemma ObjectExample()
    ensures Print(JObject([Prop([98], JArray([JBool(true), JNull])), Prop([99], JUndefined),
                           Prop([97], JString([34]))])) ==
            Some([123, 34, 97, 34, 58, 34, 92, 34, 34, 44, 34, 98, 34, 58, 91, 116, 114, 117, 101, 44,
                  110, 117, 108, 108, 93, 125])
  {
    hide Sort;
    hide JoinMembers;
    hide Escaped;
    hide PrintProps;
    hide Less;
    var b, c, a := Prop([98], JArray([JBool(true), JNull])), Prop([99], JUndefined), Prop([97], JString([34]));
    var pb, pa := Pair([98], [91, 116, 114, 117, 101, 44, 110, 117, 108, 108, 93]), Pair([97], [34, 92, 34, 34]);
    PropsExample();
    MembersExample(pa, pb);
    ObjectText(pa.text, pb.text);
  }

  lemma {:induction false} PrintPropsOk(props: seq<Prop>)
    requires forall i :: 0 <= i < |props| && !props[i].value.JUndefined? ==>
             WellFormed(props[i].key) && Print(props[i].value).Some?
    ensures PrintProps(props).Some?
  {
    if props != [] {
      var last := |props| - 1;
      assert forall i :: 0 <= i < last ==> props[..last][i] == props[i];
      PrintPropsOk(props[..last]);
      assert props[last] == props[last];
    }
  }

  lemma {:induction false} PrintAllOk(items: seq<Json>)
    requires forall i :: 0 <= i < |items| ==> Print(items[i]).Some?
    ensures PrintAll(items).Some?
  {
    if items != [] {
      var last := |items| - 1;
      assert forall i :: 0 <= i < last ==> items[..last][i] == items[i];
      PrintAllOk(items[..last]);
    }
  }

  lemma {:induction false} DenoteAllAt(items: seq<Json>, i: nat)
    requires i < |items|
    ensures DenoteAll(items)[i] == Denote(items[i])
  {
    var last := |items| - 1;
    if i < last {
      DenoteAllAt(items[..last], i);
      assert items[..last][i] == items[i];
    }
  }

  /** A value that denotes the same as one that prints, prints the same. */
  lemma {:induction false} SameMeaningSamePrint(v: Json, w: Json)
    requires Valid(v) && Valid(w) && Denote(v) == Denote(w) && Print(v).Some?
    ensures Print(w) == Print(v)
    decreases v
  {
    match v
    case JArray(items) =>
      PrintAllTexts(items);
      forall i | 0 <= i < |items| ensures Print(w.items[i]) == Print(items[i]) {
        DenoteAllAt(items, i);
        DenoteAllAt(w.items, i);
        SameMeaningSamePrint(items[i], w.items[i]);
      }
      PrintAllOk(w.items);
      PrintAllTexts(w.items);
      assert PrintAll(w.items).value == PrintAll(items).value;
    case JObject(props) =>
      PrintPropsPairs(props);
      forall i, j | 0 <= i < |props| && 0 <= j < |w.props| && !props[i].value.JUndefined? &&
        !w.props[j].value.JUndefined?
                    && props[i].key == w.props[j].key
        ensures Print(w.props[j].value) == Print(props[i].value)
      {
        DenotePropsMap(props);
        DenotePropsMap(w.props);
        SameMeaningSamePrint(props[i].value, w.props[j].value);
      }
      SamePropsSamePairs(props, w.props);
    case _ =>
  }

  /** Defined properties of the same name print alike. */
  predicate Agree(a: seq<Prop>, b: seq<Prop>) {
    forall i, j :: 0 <= i < |a| && 0 <= j < |b| && Names(a[i], b[j].key) && !b[j].value.JUndefined? ==>
      Print(b[j].value) == Print(a[i].value)
  }

  lemma AgreePair(a: seq<Prop>, b: seq<Prop>, i: nat, j: nat, q: Pair)
    requires Agree(a, b) && i < |a| && j < |b| && PairOf(a[i], q) && Names(b[j], q.key)
    ensures PairOf(b[j], q)
  {
    hide Print;
  }

  /** Texts that agree key by key make the same pairs. */
  lemma PairsCarry(a: seq<Prop>, b: seq<Prop>)
    requires DistinctKeys(a) && DistinctKeys(b) && DenoteProps(a) == DenoteProps(b) && PrintProps(a).Some? &&
             PrintProps(b).Some?
    requires Agree(a, b)
    ensures forall q :: q in PrintProps(a).value ==> q in PrintProps(b).value
  {
    DenotePropsMap(a);
    DenotePropsMap(b);
    PrintPropsPairs(a);
    PrintPropsPairs(b);
    hide PrintProps;
    hide Print;
    hide DenoteProps;
    hide Agree;
    hide PairOf;
    forall q | q in PrintProps(a).value ensures q in PrintProps(b).value {
      var i :| 0 <= i < |a| && PairOf(a[i], q);
      assert q.key in DenoteProps(a) by { Named(a[i], q); }
      var j :| 0 <= j < |b| && Names(b[j], q.key);
      AgreePair(a, b, i, j, q);
    }
  }

  lemma Named(p: Prop, q: Pair)
    requires PairOf(p, q)
    ensures !p.value.JUndefined? && p.key == q.key
  {
    hide Print;
  }

  lemma SamePropsSamePairs(a: seq<Prop>, b: seq<Prop>)
    requires DistinctKeys(a) && DistinctKeys(b) && DenoteProps(a) == DenoteProps(b) && PrintProps(a).Some?
    requires Agree(a, b)
    ensures PrintProps(b).Some? && Sort(PrintProps(b).value) == Sort(PrintProps(a).value)
  {
    DenotePropsMap(a);
    DenotePropsMap(b);
    PrintPropsPairs(a);
    forall j | 0 <= j < |b| && !b[j].value.JUndefined? ensures WellFormed(b[j].key) && Print(b[j].value).Some? {
      assert b[j].key in DenoteProps(a);
      var i :| 0 <= i < |a| && Names(a[i], b[j].key);
    }
    PrintPropsOk(b);
    PrintPropsDistinct(a);
    PrintPropsDistinct(b);
    PairsCarry(a, b);
    PairsCarry(b, a);
    SortUnique(PrintProps(a).value, PrintProps(b).value);
  }

  /** Every string in the value, and every key of a defined property, is free of lone surrogates. */
  predicate Clean(v: Json) {
    match v
    case JString(s) => WellFormed(s)
    case JArray(items) => forall i :: 0 <= i < |items| ==> Clean(items[i])
    case JObject(props) =>
      forall i :: 0 <= i < |props| && !props[i].value.JUndefined? ==> WellFormed(props[i].key) && Clean(props[i].value)
    case _ => true
  }

  /** The printer throws exactly on a lone surrogate, at any depth, in a string or in the key of a defined property. */
  lemma {:induction false} PrintsIff(v: Json)
    ensures Print(v).Some? <==> Clean(v)
    decreases v
  {
    match v
    case JArray(items) =>
      forall i | 0 <= i < |items| ensures Print(items[i]).Some? <==> Clean(items[i]) { PrintsIff(items[i]); }
      if Clean(v) { PrintAllOk(items); }
      if PrintAll(items).Some? { PrintAllTexts(items); }
    case JObject(props) =>
      forall i | 0 <= i < |props| ensures Print(props[i].value).Some? <==> Clean(props[i].value) {
        PrintsIff(props[i].value);
      }
      if Clean(v) { PrintPropsOk(props); }
      if PrintProps(props).Some? { PrintPropsPairs(props); }
    case _ =>
  }

  /**
    The canonical text is a complete invariant: two values that print have the same text exactly when they denote the
    same JSON value.
   */
  lemma SameTextIff(v: Json, w: Json)
    requires Valid(v) && Valid(w) && Print(v).Some? && Print(w).Some?
    ensures Print(v) == Print(w) <==> Denote(v) == Denote(w)
  {
    if Denote(v) == Denote(w) {
      SameMeaningSamePrint(v, w);
    }
    if Print(v) == Print(w) {
      ReadsPrinted(v);
      ReadsPrinted(w);
      var t := Print(v).value;
      assert ReadValue(t + []) == Some((Denote(v), [])) && ReadValue(t + []) == Some((Denote(w), []));
    }
  }
}
