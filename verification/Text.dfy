/** Strings as the source language holds them: sequences of UTF-16 code units. */
module Text {

  type CodeUnit = n: int | 0 <= n < 0x1_0000

  type Text = seq<CodeUnit>

  datatype Option<+T> = None | Some(value: T)

  /** A string constant of the source. Every constant of this model is plain ASCII. */
  function Ascii(s: string): (t: Text)
    ensures |t| == |s|
    ensures forall i :: 0 <= i < |s| && s[i] as int < 0x80 ==> t[i] == s[i] as int
  {
    seq(|s|, i requires 0 <= i < |s| => if s[i] as int < 0x80 then s[i] as int else 0)
  }

  predicate StartsWith(t: Text, prefix: Text) {
    |prefix| <= |t| && t[..|prefix|] == prefix
  }

  /** The code units removed by `String.prototype.trim` and skipped by `parseInt`. */
  predicate IsSpace(c: CodeUnit) {
    || 9 <= c <= 13 || c == 0x20 || c == 0xA0 || c == 0x1680
    || 0x2000 <= c <= 0x200A || c == 0x2028 || c == 0x2029
    || c == 0x202F || c == 0x205F || c == 0x3000 || c == 0xFEFF
  }

  /** The white space and line terminators of ECMAScript, sections 12.2 and 12.3. */
  const WHITE_SPACE: seq<CodeUnit> :=
    [ 0x9, 0xA, 0xB, 0xC, 0xD, 0x20, 0xA0, 0x1680, 0x2000, 0x2001, 0x2002, 0x2003, 0x2004, 0x2005, 0x2006,
      0x2007, 0x2008, 0x2009, 0x200A, 0x2028, 0x2029, 0x202F, 0x205F, 0x3000, 0xFEFF ]

  lemma SpaceExactly(c: CodeUnit)
    ensures IsSpace(c) <==> c in WHITE_SPACE
  {
    var w := WHITE_SPACE;
    if IsSpace(c) {
      assert || c == w[0] || c == w[1] || c == w[2] || c == w[3] || c == w[4] || c == w[5] || c == w[6] || c == w[7]
             || c == w[8] || c == w[9] || c == w[10] || c == w[11] || c == w[12] || c == w[13] || c == w[14]
             || c == w[15] || c == w[16] || c == w[17] || c == w[18] || c == w[19] || c == w[20] || c == w[21]
             || c == w[22] || c == w[23] || c == w[24];
    }
  }

  // ---------- Trimming ----------

  /** The text without the code units of a kind at its start. */
  function DropStart(kind: CodeUnit -> bool, t: Text): (r: Text)
    ensures r != [] ==> !kind(r[0])
    ensures |r| <= |t| && r == t[|t| - |r|..]
  {
    if t != [] && kind(t[0]) then DropStart(kind, t[1..]) else t
  }

  /** The text without the code units of a kind at its end. */
  function DropEnd(kind: CodeUnit -> bool, t: Text): (r: Text)
    ensures r != [] ==> !kind(r[|r| - 1])
    ensures |r| <= |t| && r == t[..|r|]
  {
    if t != [] && kind(t[|t| - 1]) then DropEnd(kind, t[..|t| - 1]) else t
  }

  function Trim(t: Text): (r: Text)
    ensures Trimmed(r)
  {
    DropEnd(IsSpace, DropStart(IsSpace, t))
  }

  /** Neither end is white space; exactly the texts that `trim` leaves alone. */
  predicate Trimmed(t: Text) {
    t != [] ==> !IsSpace(t[0]) && !IsSpace(t[|t| - 1])
  }

  lemma TrimKeepsTrimmed(t: Text)
    requires Trimmed(t)
    ensures Trim(t) == t
  {
  }

  ghost predicate AllOf(kind: CodeUnit -> bool, t: Text) {
    forall i :: 0 <= i < |t| ==> kind(t[i])
  }

  lemma {:induction false} DropStartOf(kind: CodeUnit -> bool, before: Text, rest: Text)
    requires AllOf(kind, before) && (rest != [] ==> !kind(rest[0]))
    ensures DropStart(kind, before + rest) == rest
  {
    if before == [] {
      assert before + rest == rest;
    } else {
      var whole := before + rest;
      assert whole[0] == before[0] && whole[1..] == before[1..] + rest;
      DropStartOf(kind, before[1..], rest);
    }
  }

  lemma {:induction false} DropEndOf(kind: CodeUnit -> bool, core: Text, after: Text)
    requires AllOf(kind, after) && (core != [] ==> !kind(core[|core| - 1]))
    ensures DropEnd(kind, core + after) == core
    decreases |after|
  {
    if after == [] {
      assert core + after == core;
    } else {
      DropEndOf(kind, core, after[..|after| - 1]);
      assert (core + after)[..|core + after| - 1] == core + after[..|after| - 1];
    }
  }

  /** The text is `core` between two runs of code units of a kind. */
  ghost predicate Around(kind: CodeUnit -> bool, t: Text, before: Text, core: Text, after: Text) {
    t == before + core + after && AllOf(kind, before) && AllOf(kind, after)
  }

  lemma BothOf(kind: CodeUnit -> bool, a: Text, b: Text)
    requires AllOf(kind, a) && AllOf(kind, b)
    ensures AllOf(kind, a + b)
  {
  }

  lemma DropAll(kind: CodeUnit -> bool, t: Text)
    requires AllOf(kind, t)
    ensures DropStart(kind, t) == []
  {
    DropStartOf(kind, t, []);
    assert t + [] == t;
  }

  lemma DropBoth(kind: CodeUnit -> bool, before: Text, core: Text, after: Text, tail: Text)
    requires AllOf(kind, before) && AllOf(kind, after) && core != [] && tail == core + after
    requires !kind(core[0]) && !kind(core[|core| - 1])
    ensures DropEnd(kind, DropStart(kind, before + tail)) == core
  {
    assert tail[0] == core[0];
    DropStartOf(kind, before, tail);
    DropEndOf(kind, core, after);
  }

  /** Trimming takes white space from both ends, all of it, and nothing else. */
  lemma TrimExactly(t: Text, before: Text, core: Text, after: Text)
    requires Around(IsSpace, t, before, core, after) && Trimmed(core)
    ensures Trim(t) == core
  {
    if core == [] {
      BothOf(IsSpace, before, after);
      assert t == before + after;
      DropAll(IsSpace, t);
    } else {
      assert t == before + (core + after);
      DropBoth(IsSpace, before, core, after, core + after);
    }
  }

  function LowerUnit(c: CodeUnit): CodeUnit {
    if 0x41 <= c <= 0x5A then c + 0x20 else c
  }

  const UPPER_CASE: Text := Ascii("ABCDEFGHIJKLMNOPQRSTUVWXYZ")
  const LOWER_CASE: Text := Ascii("abcdefghijklmnopqrstuvwxyz")

  /** Every capital letter becomes its small letter, and no other code unit changes. */
  lemma LowerUnitExactly(c: CodeUnit)
    ensures forall i :: 0 <= i < 26 && c == UPPER_CASE[i] ==> LowerUnit(c) == LOWER_CASE[i]
    ensures c !in UPPER_CASE ==> LowerUnit(c) == c
  {
    assert forall i :: 0 <= i < 26 ==> UPPER_CASE[i] == 65 + i && LOWER_CASE[i] == 97 + i;
    if 65 <= c <= 90 {
      assert UPPER_CASE[c - 65] == c;
    }
  }

  /** `toLowerCase` on ASCII letters. */
  function Lower(t: Text): (r: Text)
    ensures |r| == |t|
    ensures forall i :: 0 <= i < |t| ==> r[i] == LowerUnit(t[i])
  {
    seq(|t|, i requires 0 <= i < |t| => LowerUnit(t[i]))
  }

  predicate IsLower(t: Text) {
    forall i :: 0 <= i < |t| ==> !(0x41 <= t[i] <= 0x5A)
  }

  lemma LowerKeepsLower(t: Text)
    requires IsLower(t)
    ensures Lower(t) == t
  {
  }

  /** `parts.join(separator)` */
  function Join(parts: seq<Text>, separator: CodeUnit): Text {
    if parts == [] then []
    else if |parts| == 1 then parts[0]
    else parts[0] + [separator] + Join(parts[1..], separator)
  }

  /** The language's `<` on strings: by UTF-16 code unit, a proper prefix first. */
  predicate Less(a: Text, b: Text) {
    b != [] && (a == [] || a[0] < b[0] || (a[0] == b[0] && Less(a[1..], b[1..])))
  }

  lemma {:induction false} LessTransitive(a: Text, b: Text, c: Text)
    requires Less(a, b) && Less(b, c)
    ensures Less(a, c)
  {
    if a != [] && a[0] == b[0] == c[0] {
      LessTransitive(a[1..], b[1..], c[1..]);
    }
  }

  lemma {:induction false} LessTrichotomy(a: Text, b: Text)
    ensures (Less(a, b) <==> a != b && !Less(b, a)) && !Less(a, a)
  {
    if a != [] && b != [] && a[0] == b[0] {
      LessTrichotomy(a[1..], b[1..]);
      assert a == b <==> a[1..] == b[1..] by {
        assert a == [a[0]] + a[1..] && b == [b[0]] + b[1..];
      }
    }
    if a == [] {
    } else {
      LessTrichotomy(a[1..], a[1..]);
    }
  }

  // ---------- Splitting ----------

  /** The pieces of a text that starts with `c`, given those of the rest. */
  function SplitFrom(c: CodeUnit, rest: seq<Text>, separator: CodeUnit): (r: seq<Text>)
    requires rest != []
    ensures r != []
  {
    if c == separator then [[]] + rest else [[c] + rest[0]] + rest[1..]
  }

  /** `text.split(separator)` */
  function Split(t: Text, separator: CodeUnit): (r: seq<Text>)
    ensures r != []
  {
    if t == [] then [[]] else SplitFrom(t[0], Split(t[1..], separator), separator)
  }

  lemma SplitFromPair(c: CodeUnit, a: seq<Text>, b: seq<Text>, separator: CodeUnit)
    requires a != []
    ensures SplitFrom(c, a + b, separator) == SplitFrom(c, a, separator) + b
  {
    assert (a + b)[0] == a[0] && (a + b)[1..] == a[1..] + b;
  }

  lemma {:induction false} SplitOfPair(x: Text, y: Text, separator: CodeUnit)
    ensures Split(x + [separator] + y, separator) == Split(x, separator) + Split(y, separator)
  {
    var whole := x + [separator] + y;
    if x == [] {
      assert whole[1..] == y;
    } else {
      SplitOfPair(x[1..], y, separator);
      assert whole[0] == x[0] && whole[1..] == x[1..] + [separator] + y;
      SplitFromPair(x[0], Split(x[1..], separator), Split(y, separator), separator);
    }
  }

  lemma SplitFromJoin(c: CodeUnit, rest: seq<Text>, separator: CodeUnit)
    requires rest != []
    ensures Join(SplitFrom(c, rest, separator), separator) == [c] + Join(rest, separator)
  {
    var r := SplitFrom(c, rest, separator);
    if c == separator {
      assert r[1..] == rest;
    } else {
      assert r[1..] == rest[1..];
    }
  }

  /** A text is its pieces, joined. */
  lemma {:induction false} SplitJoinsBack(t: Text, separator: CodeUnit)
    ensures Join(Split(t, separator), separator) == t
  {
    if t == [] {
    } else {
      SplitJoinsBack(t[1..], separator);
      SplitFromJoin(t[0], Split(t[1..], separator), separator);
      assert t == [t[0]] + t[1..];
    }
  }

  /** The pieces of all parts, one after the other. */
  function AllPieces(parts: seq<Text>, separator: CodeUnit): seq<Text> {
    if parts == [] then [] else Split(parts[0], separator) + AllPieces(parts[1..], separator)
  }

  lemma {:induction false} JoinedPieces(parts: seq<Text>, separator: CodeUnit)
    requires parts != []
    ensures Split(Join(parts, separator), separator) == AllPieces(parts, separator)
  {
    if |parts| == 1 {
      assert AllPieces(parts[1..], separator) == [];
    } else {
      JoinedPieces(parts[1..], separator);
      SplitOfPair(parts[0], Join(parts[1..], separator), separator);
    }
  }

  lemma {:induction false} OnePiece(t: Text, separator: CodeUnit)
    requires separator !in t
    ensures Split(t, separator) == [t]
  {
    if t == [] {
    } else {
      OnePiece(t[1..], separator);
      assert [t[0]] + t[1..] == t;
    }
  }

  ghost predicate NoneHolds(parts: seq<Text>, separator: CodeUnit) {
    forall i :: 0 <= i < |parts| ==> separator !in parts[i]
  }

  lemma {:induction false} PiecesOfPlain(parts: seq<Text>, separator: CodeUnit)
    requires NoneHolds(parts, separator)
    ensures AllPieces(parts, separator) == parts
  {
    if parts == [] {
    } else {
      OnePiece(parts[0], separator);
      PiecesOfPlain(parts[1..], separator);
      assert [parts[0]] + parts[1..] == parts;
    }
  }

  /** Lists of at least one text without the separator are told apart by their joined text. */
  lemma JoinInjective(a: seq<Text>, b: seq<Text>, separator: CodeUnit)
    requires NoneHolds(a, separator) && NoneHolds(b, separator) && a != [] && b != []
    ensures Join(a, separator) == Join(b, separator) <==> a == b
  {
    JoinedPieces(a, separator);
    JoinedPieces(b, separator);
    PiecesOfPlain(a, separator);
    PiecesOfPlain(b, separator);
  }

  lemma {:induction false} JoinHolds(parts: seq<Text>, separator: CodeUnit, c: CodeUnit)
    requires c != separator && NoneHolds(parts, c)
    ensures c !in Join(parts, separator)
  {
    if |parts| <= 1 {
    } else {
      JoinHolds(parts[1..], separator, c);
    }
  }

  lemma JoinNotEmpty(parts: seq<Text>, separator: CodeUnit)
    requires parts != [] && parts[0] != []
    ensures Join(parts, separator) != []
  {
  }
}
