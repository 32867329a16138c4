/** Strings as sequences of code units, with the order the engine and the canonicaliser sort by. */
module Text {

  /** A UTF-16 code unit (JavaScript) or a byte (Go): both languages compare strings unit by unit. */
  type CodeUnit = x: int | 0 <= x < 0x1_0000

  type Str = seq<CodeUnit>

  datatype Option<+T> = None | Some(value: T)

  datatype Result<+T, +E> = Ok(value: T) | Err(error: E)

  /** Lexicographic order by code unit; a proper prefix comes first. */
  predicate Less(a: Str, b: Str) {
    if b == [] then false
    else if a == [] then true
    else if a[0] != b[0] then a[0] < b[0]
    else Less(a[1..], b[1..])
  }

  lemma {:induction false} LessIrreflexive(a: Str)
    ensures !Less(a, a)
  {
    if a != [] { LessIrreflexive(a[1..]); }
  }

  lemma {:induction false} LessTransitive(a: Str, b: Str, c: Str)
    requires Less(a, b) && Less(b, c)
    ensures Less(a, c)
  {
    if a != [] && b != [] && c != [] && a[0] == b[0] == c[0] {
      LessTransitive(a[1..], b[1..], c[1..]);
    }
  }

  lemma {:induction false} LessTotal(a: Str, b: Str)
    ensures a == b || Less(a, b) || Less(b, a)
    ensures !(Less(a, b) && Less(b, a))
  {
    if a != [] && b != [] && a[0] == b[0] {
      LessTotal(a[1..], b[1..]);
      assert a == [a[0]] + a[1..] && b == [b[0]] + b[1..];
    }
  }

  /** a and b part at position i: there a ends and b goes on, or a has the smaller unit. */
  predicate PartsBelow(a: Str, b: Str, i: nat) {
    i <= |a| && i < |b| && a[..i] == b[..i] && (i == |a| || a[i] < b[i])
  }

  /** a comes before b: it is a proper prefix, or has the smaller unit at the first position where they differ. */
  ghost predicate Precedes(a: Str, b: Str) {
    exists i: nat :: PartsBelow(a, b, i)
  }

  lemma {:induction false} LessParts(a: Str, b: Str) returns (i: nat)
    requires Less(a, b)
    ensures PartsBelow(a, b, i)
  {
    if a == [] || a[0] != b[0] {
      i := 0;
    } else {
      var j := LessParts(a[1..], b[1..]);
      i := j + 1;
      assert a[..i] == [a[0]] + a[1..][..j] && b[..i] == [b[0]] + b[1..][..j];
    }
  }

  lemma {:induction false} PartsLess(a: Str, b: Str, i: nat)
    requires PartsBelow(a, b, i)
    ensures Less(a, b)
    decreases i
  {
    if i > 0 {
      assert a[0] == a[..i][0] == b[..i][0] == b[0];
      assert a[1..][..i-1] == a[..i][1..] && b[1..][..i-1] == b[..i][1..];
      PartsLess(a[1..], b[1..], i - 1);
    }
  }

  /** The order the strings are sorted by is the order by positions. */
  lemma LessIff(a: Str, b: Str)
    ensures Less(a, b) <==> Precedes(a, b)
  {
    if Less(a, b) { var _ := LessParts(a, b); }
    if i: nat :| PartsBelow(a, b, i) { PartsLess(a, b, i); }
  }

  /** Of any two strings exactly one comes first, unless they are the same. */
  lemma PrecedesTotal(a: Str, b: Str)
    ensures a == b || Precedes(a, b) || Precedes(b, a)
    ensures !(Precedes(a, b) && Precedes(b, a)) && (Precedes(a, b) ==> a != b)
  {
    hide Precedes;
    LessIff(a, b);
    LessIff(b, a);
    LessTotal(a, b);
  }

  /** Strictly increasing by Less, which rules out duplicates. */
  predicate Increasing(keys: seq<Str>) {
    forall i, j :: 0 <= i < j < |keys| ==> Less(keys[i], keys[j])
  }

  /** A set of strings has only one increasing listing, whatever order a map iteration produced. */
  lemma {:induction false} IncreasingUnique(a: seq<Str>, b: seq<Str>)
    requires Increasing(a) && Increasing(b)
    requires forall k :: k in a <==> k in b
    ensures a == b
  {
    assert |b| > 0 ==> b[0] in a;
    if a != [] {
      assert a[0] in b;
      assert b[0] in a;
      if a[0] != b[0] {
        assert Less(a[0], b[0]) && Less(b[0], a[0]);
        LessTotal(a[0], b[0]);
        assert false;
      }
      forall k ensures k in a[1..] <==> k in b[1..] {
        LessIrreflexive(a[0]);
        if k in a[1..] { assert Less(a[0], k); assert k in b; }
        if k in b[1..] { assert Less(b[0], k); assert k in a; }
      }
      IncreasingUnique(a[1..], b[1..]);
      assert a == [a[0]] + a[1..] && b == [b[0]] + b[1..];
    }
  }
}
