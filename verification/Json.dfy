/**
 JSON values and the compact text that `JSON.stringify` writes for them
 (sections 4, 5 and 7 of RFC 8259), with a decoder that reads the text back.

 The printer takes the text that follows the value, so that printing never has to
 re-associate concatenations: `Print(v, k)` is the text of `v` followed by `k`.
 */
module Json {
  import opened Text

  /** A finite number is held as the shortest text the language prints for it. */
  datatype Value =
    | Undefined
    | Null
    | Bool(b: bool)
    | Num(digits: Text)
    | Str(s: Text)
    | Arr(items: seq<Value>)
    | Obj(members: seq<Member>)

  datatype Member = Member(key: Text, value: Value)

  const QUOTE: CodeUnit := 34
  const COMMA: CodeUnit := 44
  const COLON: CodeUnit := 58
  const LBRACKET: CodeUnit := 91
  const BACKSLASH: CodeUnit := 92
  const RBRACKET: CodeUnit := 93
  const LBRACE: CodeUnit := 123
  const RBRACE: CodeUnit := 125
  const NULL: Text := [110, 117, 108, 108]
  const TRUE: Text := [116, 114, 117, 101]
  const FALSE: Text := [102, 97, 108, 115, 101]

  // ---------- Well-formed values ----------

  /** The code units a number can be written with: digits, sign, point and exponent. */
  predicate NumUnit(c: CodeUnit) {
    48 <= c <= 57 || c == 43 || c == 45 || c == 46 || c == 69 || c == 101
  }

  predicate NumberText(t: Text) {
    && t != []
    && (t[0] == 45 || 48 <= t[0] <= 57)
    && forall i :: 0 <= i < |t| ==> NumUnit(t[i])
  }

  predicate DistinctKeys(ms: seq<Member>) {
    forall i, j :: 0 <= i < j < |ms| ==> ms[i].key != ms[j].key
  }

  /** A value the language can hold: numbers print as numbers, no object has a key twice. */
  predicate WellFormed(v: Value) {
    match v
    case Num(t) => NumberText(t)
    case Arr(items) => forall i :: 0 <= i < |items| ==> WellFormed(items[i])
    case Obj(ms) => DistinctKeys(ms) && forall i :: 0 <= i < |ms| ==> WellFormed(ms[i].value)
    case _ => true
  }

  /** Nothing in the value is `undefined`: what a JSON text can say. */
  predicate Defined(v: Value) {
    match v
    case Undefined => false
    case Num(t) => NumberText(t)
    case Arr(items) => forall i :: 0 <= i < |items| ==> Defined(items[i])
    case Obj(ms) => forall i :: 0 <= i < |ms| ==> Defined(ms[i].value)
    case _ => true
  }

  // ---------- Printing ----------

  function HexDigit(n: int): CodeUnit
    requires 0 <= n < 16
  {
    if n < 10 then 48 + n else 87 + n
  }

  predicate IsHighSurrogate(c: CodeUnit) { 0xD800 <= c <= 0xDBFF }
  predicate IsLowSurrogate(c: CodeUnit) { 0xDC00 <= c <= 0xDFFF }

  function UnicodeEscape(c: CodeUnit): Text {
    [BACKSLASH, 117, HexDigit(c / 16 / 16 / 16), HexDigit(c / 16 / 16 % 16), HexDigit(c / 16 % 16), HexDigit(c % 16)]
  }

  /** The text written for one code unit that is not half of a surrogate pair. */
  function EscapeUnit(c: CodeUnit): Text {
    if c == QUOTE || c == BACKSLASH then [BACKSLASH, c]
    else if c == 8 then [BACKSLASH, 98]
    else if c == 9 then [BACKSLASH, 116]
    else if c == 10 then [BACKSLASH, 110]
    else if c == 12 then [BACKSLASH, 102]
    else if c == 13 then [BACKSLASH, 114]
    else if c < 32 || IsHighSurrogate(c) || IsLowSurrogate(c) then UnicodeEscape(c)
    else [c]
  }

  /** The short escapes, and no escape for other units that are neither control characters nor surrogates. */
  lemma EscapesAre()
    ensures EscapeUnit(8) == Ascii("\\b") && EscapeUnit(9) == Ascii("\\t") && EscapeUnit(10) == Ascii("\\n")
    ensures EscapeUnit(12) == Ascii("\\f") && EscapeUnit(13) == Ascii("\\r")
    ensures EscapeUnit(34) == Ascii("\\\"") && EscapeUnit(92) == Ascii("\\\\")
    ensures forall c: CodeUnit :: c >= 32 && c != 34 && c != 92 && !(0xD800 <= c <= 0xDFFF) ==> EscapeUnit(c) == [c]
  {
  }

  lemma UnicodeEscapesAre()
    ensures EscapeUnit(0x1F) == Ascii("\\u001f") && EscapeUnit(0xD83D) == Ascii("\\ud83d")
  {
  }

  lemma {:induction false} PlainChars(s: Text, k: Text)
    requires forall i :: 0 <= i < |s| ==> s[i] >= 32 && s[i] != 34 && s[i] != 92 && !(0xD800 <= s[i] <= 0xDFFF)
    ensures PrintChars(s, k) == s + ([QUOTE] + k)
  {
    if s == [] {
    } else {
      PlainChars(s[1..], k);
      assert s + ([QUOTE] + k) == [s[0]] + (s[1..] + ([QUOTE] + k));
    }
  }

  /** The characters of `s`, the closing quote, then `k`. Surrogate pairs are written raw. */
  function PrintChars(s: Text, k: Text): Text {
    if s == [] then [QUOTE] + k
    else if |s| > 1 && IsHighSurrogate(s[0]) && IsLowSurrogate(s[1]) then
      [s[0]] + ([s[1]] + PrintChars(s[2..], k))
    else EscapeUnit(s[0]) + PrintChars(s[1..], k)
  }

  /** A surrogate pair is printed as it stands; a surrogate without its other half is escaped. */
  lemma SurrogatesPrinted(c: CodeUnit, rest: Text, k: Text)
    requires 0xD800 <= c <= 0xDFFF
    ensures var paired := c < 0xDC00 && rest != [] && 0xDC00 <= rest[0] <= 0xDFFF;
            PrintChars([c] + rest, k)
            == if paired then [c, rest[0]] + PrintChars(rest[1..], k) else UnicodeEscape(c) + PrintChars(rest, k)
  {
    var s := [c] + rest;
    assert s[1..] == rest;
    if rest != [] {
      assert s[2..] == rest[1..];
    }
  }

  function PrintString(s: Text, k: Text): Text {
    [QUOTE] + PrintChars(s, k)
  }

  function Print(v: Value, k: Text): Text
    decreases v, 1
  {
    match v
    case Undefined => NULL + k
    case Null => NULL + k
    case Bool(b) => (if b then TRUE else FALSE) + k
    case Num(t) => t + k
    case Str(s) => PrintString(s, k)
    case Arr(items) => [LBRACKET] + (if items == [] then [RBRACKET] + k else PrintItems(items, k))
    case Obj(ms) => [LBRACE] + (if ms == [] then [RBRACE] + k else PrintMembers(ms, k))
  }

  function PrintItems(items: seq<Value>, k: Text): Text
    requires items != []
    decreases items, 0
  {
    Print(items[0], if |items| == 1 then [RBRACKET] + k else [COMMA] + PrintItems(items[1..], k))
  }

  function PrintMembers(ms: seq<Member>, k: Text): Text
    requires ms != []
    decreases ms, 0
  {
    PrintString(ms[0].key,
                [COLON] + Print(ms[0].value, if |ms| == 1 then [RBRACE] + k else [COMMA] + PrintMembers(ms[1..], k)))
  }

  /** What `JSON.stringify` keeps: `undefined` is dropped from objects and reads `null` in arrays. */
  function Strip(v: Value): (r: Value)
    ensures WellFormed(v) ==> Defined(r)
    decreases v, 1
  {
    match v
    case Undefined => Null
    case Arr(items) => Arr(StripItems(items))
    case Obj(ms) => Obj(StripMembers(ms))
    case _ => v
  }

  function StripItems(items: seq<Value>): (r: seq<Value>)
    ensures (forall i :: 0 <= i < |items| ==> WellFormed(items[i])) ==> forall i :: 0 <= i < |r| ==> Defined(r[i])
    decreases items, 0
  {
    if items == [] then [] else [Strip(items[0])] + StripItems(items[1..])
  }

  function StripMembers(ms: seq<Member>): (r: seq<Member>)
    ensures (forall i :: 0 <= i < |ms| ==> WellFormed(ms[i].value)) ==> forall i :: 0 <= i < |r| ==> Defined(r[i].value)
    decreases ms, 0
  {
    if ms == [] then []
    else if ms[0].value.Undefined? then StripMembers(ms[1..])
    else [Member(ms[0].key, Strip(ms[0].value))] + StripMembers(ms[1..])
  }

  function Stringify(v: Value): Text {
    Print(Strip(v), [])
  }

  /** A line break and `depth` levels of two spaces. */
  function NewLine(depth: nat): Text {
    [10] + seq(2 * depth, _ => 32)
  }

  /** `JSON.stringify(value, null, 2)` of a value without `undefined`, nested `depth` levels deep, followed by `k`. */
  function PrettyPrint(v: Value, depth: nat, k: Text): Text
    decreases v, 1
  {
    match v
    case Arr(items) =>
      [LBRACKET] + if items == [] then [RBRACKET] + k
                   else PrettyItems(items, depth + 1, NewLine(depth) + ([RBRACKET] + k))
    case Obj(ms) =>
      [LBRACE] + if ms == [] then [RBRACE] + k
                 else PrettyMembers(ms, depth + 1, NewLine(depth) + ([RBRACE] + k))
    case _ => Print(v, k)
  }

  function PrettyItems(items: seq<Value>, depth: nat, k: Text): Text
    requires items != []
    decreases items, 0
  {
    NewLine(depth)
    + PrettyPrint(items[0], depth, if |items| == 1 then k else [COMMA] + PrettyItems(items[1..], depth, k))
  }

  function PrettyMembers(ms: seq<Member>, depth: nat, k: Text): Text
    requires ms != []
    decreases ms, 0
  {
    NewLine(depth)
    + PrintString(ms[0].key, [COLON] + ([32] +
        PrettyPrint(ms[0].value, depth, if |ms| == 1 then k else [COMMA] + PrettyMembers(ms[1..], depth, k))))
  }

  // ---------- Layout ----------

  predicate Layout(c: CodeUnit) {
    c == 10 || c == 32
  }

  /** The text without the line breaks and spaces outside strings. */
  function Squeeze(t: Text): Text
    decreases |t|
  {
    if t == [] then []
    else if Layout(t[0]) then Squeeze(t[1..])
    else if t[0] == QUOTE then [QUOTE] + SqueezeString(t[1..])
    else [t[0]] + Squeeze(t[1..])
  }

  /** The same from inside a string on; a backslash keeps the unit behind it. */
  function SqueezeString(t: Text): Text
    decreases |t|
  {
    if t == [] then []
    else if t[0] == BACKSLASH && |t| > 1 then [t[0], t[1]] + SqueezeString(t[2..])
    else if t[0] == QUOTE then [QUOTE] + Squeeze(t[1..])
    else [t[0]] + SqueezeString(t[1..])
  }

  lemma {:induction false} PlainStays(t: Text, k: Text)
    requires forall i :: 0 <= i < |t| ==> !Layout(t[i]) && t[i] != QUOTE
    ensures Squeeze(t + k) == t + Squeeze(k)
    decreases |t|
  {
    if t == [] {
      assert t + k == k;
    } else {
      PlainStays(t[1..], k);
      assert (t + k)[1..] == t[1..] + k;
      assert t + Squeeze(k) == [t[0]] + (t[1..] + Squeeze(k));
    }
  }

  lemma {:induction false} LayoutGoes(t: Text, k: Text)
    requires forall i :: 0 <= i < |t| ==> Layout(t[i])
    ensures Squeeze(t + k) == Squeeze(k)
    decreases |t|
  {
    if t == [] {
      assert t + k == k;
    } else {
      LayoutGoes(t[1..], k);
      assert (t + k)[1..] == t[1..] + k;
    }
  }

  lemma SignStays(c: CodeUnit, k: Text)
    requires !Layout(c) && c != QUOTE
    ensures Squeeze([c] + k) == [c] + Squeeze(k)
  {
    assert ([c] + k)[1..] == k;
  }

  lemma {:induction false} StringUnitsStay(t: Text, k: Text)
    requires forall i :: 0 <= i < |t| ==> t[i] != QUOTE && t[i] != BACKSLASH
    ensures SqueezeString(t + k) == t + SqueezeString(k)
    decreases |t|
  {
    if t == [] {
      assert t + k == k;
    } else {
      StringUnitsStay(t[1..], k);
      assert (t + k)[1..] == t[1..] + k;
      assert t + SqueezeString(k) == [t[0]] + (t[1..] + SqueezeString(k));
    }
  }

  lemma BackslashStays(c: CodeUnit, k: Text)
    ensures SqueezeString([BACKSLASH, c] + k) == [BACKSLASH, c] + SqueezeString(k)
  {
    assert ([BACKSLASH, c] + k)[2..] == k;
  }

  lemma UnicodeStays(c: CodeUnit, k: Text)
    ensures SqueezeString(UnicodeEscape(c) + k) == UnicodeEscape(c) + SqueezeString(k)
  {
    var u := UnicodeEscape(c);
    var digits := u[2..];
    BackslashStays(u[1], digits + k);
    StringUnitsStay(digits, k);
    assert u + k == [BACKSLASH, u[1]] + (digits + k);
    assert u + SqueezeString(k) == [BACKSLASH, u[1]] + (digits + SqueezeString(k));
  }

  lemma EscapedStays(c: CodeUnit, k: Text)
    ensures SqueezeString(EscapeUnit(c) + k) == EscapeUnit(c) + SqueezeString(k)
  {
    var u := EscapeUnit(c);
    if |u| == 1 {
      StringUnitsStay(u, k);
    } else if |u| == 2 {
      BackslashStays(u[1], k);
    } else {
      UnicodeStays(c, k);
    }
  }

  lemma {:induction false} CharsStay(s: Text, k: Text)
    ensures SqueezeString(PrintChars(s, k)) == PrintChars(s, Squeeze(k))
    decreases |s|
  {
    if s == [] {
      assert ([QUOTE] + k)[1..] == k;
    } else if |s| > 1 && IsHighSurrogate(s[0]) && IsLowSurrogate(s[1]) {
      CharsStay(s[2..], k);
      StringUnitsStay([s[0], s[1]], PrintChars(s[2..], k));
      assert [s[0], s[1]] + PrintChars(s[2..], k) == [s[0]] + ([s[1]] + PrintChars(s[2..], k));
    } else {
      CharsStay(s[1..], k);
      EscapedStays(s[0], PrintChars(s[1..], k));
    }
  }

  lemma StringStays(s: Text, k: Text)
    ensures Squeeze(PrintString(s, k)) == PrintString(s, Squeeze(k))
  {
    CharsStay(s, k);
    assert PrintString(s, k)[1..] == PrintChars(s, k);
  }

  lemma ScalarStays(v: Value, k: Text)
    requires Defined(v) && !v.Arr? && !v.Obj?
    ensures Squeeze(Print(v, k)) == Print(v, Squeeze(k))
  {
    match v
    case Null => PlainStays(NULL, k);
    case Bool(b) => PlainStays(if b then TRUE else FALSE, k);
    case Num(t) => PlainStays(t, k);
    case Str(s) => StringStays(s, k);
  }

  /** Pretty-printed text is the compact text with layout between its tokens. */
  lemma {:induction false} PrettyIsCompact(v: Value, depth: nat, k: Text)
    requires Defined(v)
    ensures Squeeze(PrettyPrint(v, depth, k)) == Print(v, Squeeze(k))
    decreases v, 1
  {
    match v
    case Arr(items) =>
      if items == [] {
        PlainStays([LBRACKET, RBRACKET], k);
        assert [LBRACKET, RBRACKET] + k == [LBRACKET] + ([RBRACKET] + k);
        assert [LBRACKET, RBRACKET] + Squeeze(k) == [LBRACKET] + ([RBRACKET] + Squeeze(k));
      } else {
        SignStays(LBRACKET, PrettyItems(items, depth + 1, NewLine(depth) + ([RBRACKET] + k)));
        PrettyItemsCompact(items, depth + 1, depth, k);
      }
    case Obj(ms) =>
      if ms == [] {
        PlainStays([LBRACE, RBRACE], k);
        assert [LBRACE, RBRACE] + k == [LBRACE] + ([RBRACE] + k);
        assert [LBRACE, RBRACE] + Squeeze(k) == [LBRACE] + ([RBRACE] + Squeeze(k));
      } else {
        SignStays(LBRACE, PrettyMembers(ms, depth + 1, NewLine(depth) + ([RBRACE] + k)));
        PrettyMembersCompact(ms, depth + 1, depth, k);
      }
    case _ => ScalarStays(v, k);
  }

  lemma {:induction false} PrettyItemsCompact(items: seq<Value>, depth: nat, outer: nat, k: Text)
    requires items != [] && forall i :: 0 <= i < |items| ==> Defined(items[i])
    ensures Squeeze(PrettyItems(items, depth, NewLine(outer) + ([RBRACKET] + k))) == PrintItems(items, Squeeze(k))
    decreases items, 0
  {
    var end := NewLine(outer) + ([RBRACKET] + k);
    var next := if |items| == 1 then end else [COMMA] + PrettyItems(items[1..], depth, end);
    if |items| == 1 {
      LayoutGoes(NewLine(outer), [RBRACKET] + k);
      SignStays(RBRACKET, k);
    } else {
      PrettyItemsCompact(items[1..], depth, outer, k);
      SignStays(COMMA, PrettyItems(items[1..], depth, end));
    }
    LayoutGoes(NewLine(depth), PrettyPrint(items[0], depth, next));
    PrettyIsCompact(items[0], depth, next);
  }

  lemma {:induction false} PrettyMembersCompact(ms: seq<Member>, depth: nat, outer: nat, k: Text)
    requires ms != [] && forall i :: 0 <= i < |ms| ==> Defined(ms[i].value)
    ensures Squeeze(PrettyMembers(ms, depth, NewLine(outer) + ([RBRACE] + k))) == PrintMembers(ms, Squeeze(k))
    decreases ms, 0
  {
    var end := NewLine(outer) + ([RBRACE] + k);
    var next := if |ms| == 1 then end else [COMMA] + PrettyMembers(ms[1..], depth, end);
    if |ms| == 1 {
      LayoutGoes(NewLine(outer), [RBRACE] + k);
      SignStays(RBRACE, k);
    } else {
      PrettyMembersCompact(ms[1..], depth, outer, k);
      SignStays(COMMA, PrettyMembers(ms[1..], depth, end));
    }
    var value := PrettyPrint(ms[0].value, depth, next);
    PrettyIsCompact(ms[0].value, depth, next);
    LayoutGoes([32], value);
    SignStays(COLON, [32] + value);
    StringStays(ms[0].key, [COLON] + ([32] + value));
    LayoutGoes(NewLine(depth), PrintString(ms[0].key, [COLON] + ([32] + value)));
  }

  // ---------- Decoding ----------

  datatype Parsed<+T> = Fail | Ok(value: T, rest: Text)

  function HexValue(c: CodeUnit): (r: Option<int>)
    ensures r.Some? ==> 0 <= r.value < 16
  {
    if 48 <= c <= 57 then Some(c - 48)
    else if 97 <= c <= 102 then Some(c - 87)
    else if 65 <= c <= 70 then Some(c - 55)
    else None
  }

  function DecodeUnicode(s: Text): (r: Parsed<CodeUnit>)
    ensures r.Ok? ==> |r.rest| < |s|
  {
    if |s| < 4 then Fail
    else
      match (HexValue(s[0]), HexValue(s[1]), HexValue(s[2]), HexValue(s[3]))
      case (Some(a), Some(b), Some(c), Some(d)) => Ok(a * 4096 + b * 256 + c * 16 + d, s[4..])
      case _ => Fail
  }

  /** One escape, read after its backslash. */
  function DecodeEscape(s: Text): (r: Parsed<CodeUnit>)
    ensures r.Ok? ==> |r.rest| < |s|
  {
    if s == [] then Fail
    else if s[0] == QUOTE || s[0] == BACKSLASH || s[0] == 47 then Ok(s[0], s[1..])
    else if s[0] == 98 then Ok(8, s[1..])
    else if s[0] == 116 then Ok(9, s[1..])
    else if s[0] == 110 then Ok(10, s[1..])
    else if s[0] == 102 then Ok(12, s[1..])
    else if s[0] == 114 then Ok(13, s[1..])
    else if s[0] == 117 then DecodeUnicode(s[1..])
    else Fail
  }

  function DecodeChars(s: Text): (r: Parsed<Text>)
    ensures r.Ok? ==> |r.rest| < |s|
    decreases |s|
  {
    if s == [] || s[0] < 32 then Fail
    else if s[0] == QUOTE then Ok([], s[1..])
    else
      var head := if s[0] == BACKSLASH then DecodeEscape(s[1..]) else Ok(s[0], s[1..]);
      if head.Fail? then Fail
      else
        match DecodeChars(head.rest)
        case Fail => Fail
        case Ok(tail, rest) => Ok([head.value] + tail, rest)
  }

  function DecodeWord(s: Text, word: Text, v: Value): (r: Parsed<Value>)
    requires word != []
    ensures r.Ok? ==> |r.rest| < |s|
  {
    if StartsWith(s, word) then Ok(v, s[|word|..]) else Fail
  }

  function NumberLength(s: Text): (n: nat)
    ensures n <= |s|
  {
    if s != [] && NumUnit(s[0]) then 1 + NumberLength(s[1..]) else 0
  }

  function DecodeValue(s: Text): (r: Parsed<Value>)
    ensures r.Ok? ==> |r.rest| < |s|
    decreases |s|, 1
  {
    if s == [] then Fail
    else if s[0] == NULL[0] then DecodeWord(s, NULL, Null)
    else if s[0] == TRUE[0] then DecodeWord(s, TRUE, Bool(true))
    else if s[0] == FALSE[0] then DecodeWord(s, FALSE, Bool(false))
    else if s[0] == QUOTE then
      match DecodeChars(s[1..])
      case Fail => Fail
      case Ok(t, rest) => Ok(Str(t), rest)
    else if s[0] == LBRACKET then
      if |s| > 1 && s[1] == RBRACKET then Ok(Arr([]), s[2..])
      else
        match DecodeItems(s[1..])
        case Fail => Fail
        case Ok(items, rest) => Ok(Arr(items), rest)
    else if s[0] == LBRACE then
      if |s| > 1 && s[1] == RBRACE then Ok(Obj([]), s[2..])
      else
        match DecodeMembers(s[1..])
        case Fail => Fail
        case Ok(ms, rest) => Ok(Obj(ms), rest)
    else if s[0] == 45 || 48 <= s[0] <= 57 then
      Ok(Num(s[..NumberLength(s)]), s[NumberLength(s)..])
    else Fail
  }

  function DecodeItems(s: Text): (r: Parsed<seq<Value>>)
    ensures r.Ok? ==> |r.rest| < |s|
    decreases |s|, 2
  {
    match DecodeValue(s)
    case Fail => Fail
    case Ok(v, rest) =>
      if rest != [] && rest[0] == RBRACKET then Ok([v], rest[1..])
      else if rest != [] && rest[0] == COMMA then
        match DecodeItems(rest[1..])
        case Fail => Fail
        case Ok(vs, rest') => Ok([v] + vs, rest')
      else Fail
  }

  function DecodeMembers(s: Text): (r: Parsed<seq<Member>>)
    ensures r.Ok? ==> |r.rest| < |s|
    decreases |s|, 2
  {
    if s == [] || s[0] != QUOTE then Fail
    else
      match DecodeChars(s[1..])
      case Fail => Fail
      case Ok(key, rest) =>
        if rest == [] || rest[0] != COLON then Fail
        else
          match DecodeValue(rest[1..])
          case Fail => Fail
          case Ok(v, rest) =>
            if rest != [] && rest[0] == RBRACE then Ok([Member(key, v)], rest[1..])
            else if rest != [] && rest[0] == COMMA then
              match DecodeMembers(rest[1..])
              case Fail => Fail
              case Ok(ms, rest') => Ok([Member(key, v)] + ms, rest')
            else Fail
  }

  /** Reads a whole text. */
  function Decode(s: Text): Option<Value> {
    var r := DecodeValue(s);
    if r.Ok? && r.rest == [] then Some(r.value) else None
  }

  // ---------- Round trip ----------

  lemma DigitRoundTrip(n: int)
    requires 0 <= n < 16
    ensures HexValue(HexDigit(n)) == Some(n)
  {
  }

  lemma UnicodeRoundTrip(c: CodeUnit, k: Text)
    ensures DecodeUnicode(UnicodeEscape(c)[2..] + k) == Ok(c, k)
  {
    var q1 := c / 16;
    var q2 := q1 / 16;
    DigitRoundTrip(q2 / 16);
    DigitRoundTrip(q2 % 16);
    DigitRoundTrip(q1 % 16);
    DigitRoundTrip(c % 16);
    var t := UnicodeEscape(c)[2..] + k;
    assert t[4..] == k;
    assert t[0] == HexDigit(q2 / 16) && t[1] == HexDigit(q2 % 16) && t[2] == HexDigit(q1 % 16) && t[3] == HexDigit(c % 16);
  }

  lemma EscapeRoundTrip(c: CodeUnit, k: Text)
    ensures var t := EscapeUnit(c) + k;
            && t[0] >= 32 && t[0] != QUOTE
            && if t[0] == BACKSLASH then DecodeEscape(t[1..]) == Ok(c, k) else t == [c] + k
  {
    var t := EscapeUnit(c) + k;
    if t[0] == BACKSLASH {
      if t[1] == 117 {
        assert EscapeUnit(c) == UnicodeEscape(c);
        assert t[1..][1..] == UnicodeEscape(c)[2..] + k;
        UnicodeRoundTrip(c, k);
      } else {
        assert t[1..][1..] == k;
      }
    }
  }

  /** A code unit that stands for itself. */
  lemma PlainUnitReads(c: CodeUnit, rest: Text, chars: Text, k: Text)
    requires c >= 32 && c != QUOTE && c != BACKSLASH && DecodeChars(rest) == Ok(chars, k)
    ensures DecodeChars([c] + rest) == Ok([c] + chars, k)
  {
    assert ([c] + rest)[1..] == rest;
  }

  lemma UnitReads(c: CodeUnit, rest: Text, chars: Text, k: Text)
    requires DecodeChars(rest) == Ok(chars, k)
    ensures DecodeChars(EscapeUnit(c) + rest) == Ok([c] + chars, k)
  {
    var t := EscapeUnit(c) + rest;
    EscapeRoundTrip(c, rest);
    if t[0] != BACKSLASH {
      PlainUnitReads(c, rest, chars, k);
    }
  }

  lemma SurrogatePairReads(high: CodeUnit, low: CodeUnit, rest: Text, chars: Text, k: Text)
    requires IsHighSurrogate(high) && IsLowSurrogate(low) && DecodeChars(rest) == Ok(chars, k)
    ensures DecodeChars([high] + ([low] + rest)) == Ok([high] + ([low] + chars), k)
  {
    PlainUnitReads(low, rest, chars, k);
    PlainUnitReads(high, [low] + rest, [low] + chars, k);
  }

  lemma {:induction false} CharsRoundTrip(s: Text, k: Text)
    ensures DecodeChars(PrintChars(s, k)) == Ok(s, k)
    decreases |s|
  {
    if s == [] {
      assert ([QUOTE] + k)[1..] == k;
    } else if |s| > 1 && IsHighSurrogate(s[0]) && IsLowSurrogate(s[1]) {
      CharsRoundTrip(s[2..], k);
      SurrogatePairReads(s[0], s[1], PrintChars(s[2..], k), s[2..], k);
      assert [s[0]] + ([s[1]] + s[2..]) == s;
    } else {
      CharsRoundTrip(s[1..], k);
      UnitReads(s[0], PrintChars(s[1..], k), s[1..], k);
      assert [s[0]] + s[1..] == s;
    }
  }

  /** `k` cannot continue a number. */
  predicate Stops(k: Text) {
    k == [] || !NumUnit(k[0])
  }

  lemma {:induction false} NumberLengthOf(t: Text, k: Text)
    requires forall i :: 0 <= i < |t| ==> NumUnit(t[i])
    requires Stops(k)
    ensures NumberLength(t + k) == |t|
  {
    if t == [] {
      assert t + k == k;
    } else {
      assert (t + k)[1..] == t[1..] + k;
      NumberLengthOf(t[1..], k);
    }
  }

  /** Printing a value never starts with a closing bracket or brace. */
  lemma PrintStart(v: Value, k: Text)
    requires Defined(v)
    ensures Print(v, k) != [] && Print(v, k)[0] != RBRACKET && Print(v, k)[0] != RBRACE
  {
  }

  /** Decoding undoes printing, and gives back exactly the text that followed the value. */
  lemma {:induction false} ValueRoundTrip(v: Value, k: Text)
    requires Defined(v) && Stops(k)
    ensures DecodeValue(Print(v, k)) == Ok(v, k)
    decreases v, 1
  {
    var t := Print(v, k);
    match v
    case Null =>
      assert t[..4] == NULL && t[4..] == k;
    case Bool(b) =>
      assert b ==> t[..4] == TRUE && t[4..] == k;
      assert !b ==> t[..5] == FALSE && t[5..] == k;
    case Num(d) =>
      NumberLengthOf(d, k);
      assert t[0] == d[0] && t[..|d|] == d && t[|d|..] == k;
    case Str(s) =>
      CharsRoundTrip(s, k);
      assert t[1..] == PrintChars(s, k);
    case Arr(items) =>
      if items == [] {
        assert t[2..] == k;
      } else {
        ItemsRoundTrip(items, k);
        assert t[1..] == PrintItems(items, k);
        PrintStart(items[0], if |items| == 1 then [RBRACKET] + k else [COMMA] + PrintItems(items[1..], k));
      }
    case Obj(ms) =>
      if ms == [] {
        assert t[2..] == k;
      } else {
        MembersRoundTrip(ms, k);
        assert t[1..] == PrintMembers(ms, k);
      }
  }

  lemma {:induction false} ItemsRoundTrip(items: seq<Value>, k: Text)
    requires items != [] && forall i :: 0 <= i < |items| ==> Defined(items[i])
    ensures DecodeItems(PrintItems(items, k)) == Ok(items, k)
    decreases items, 0
  {
    assert Defined(items[0]);
    if |items| == 1 {
      ValueRoundTrip(items[0], [RBRACKET] + k);
      assert items == [items[0]];
    } else {
      var more := PrintItems(items[1..], k);
      ValueRoundTrip(items[0], [COMMA] + more);
      ItemsRoundTrip(items[1..], k);
      assert ([COMMA] + more)[1..] == more;
      assert items == [items[0]] + items[1..];
    }
  }

  /** One member: its key and value are read, and then the text that followed. */
  lemma MemberRoundTrip(m: Member, after: Text)
    requires Defined(m.value) && Stops(after)
    ensures var t := PrintString(m.key, [COLON] + Print(m.value, after));
            && t[0] == QUOTE
            && DecodeChars(t[1..]) == Ok(m.key, [COLON] + Print(m.value, after))
            && DecodeValue(([COLON] + Print(m.value, after))[1..]) == Ok(m.value, after)
    decreases m.value, 2
  {
    var rest := [COLON] + Print(m.value, after);
    CharsRoundTrip(m.key, rest);
    assert PrintString(m.key, rest)[1..] == PrintChars(m.key, rest);
    assert rest[1..] == Print(m.value, after);
    ValueRoundTrip(m.value, after);
  }

  /** Reading one member leaves the separator that decides how to go on. */
  lemma DecodeMembersStep(m: Member, after: Text)
    requires Defined(m.value) && Stops(after) && after != []
    ensures var t := PrintString(m.key, [COLON] + Print(m.value, after));
            DecodeMembers(t) ==
            if after[0] == RBRACE then Ok([m], after[1..])
            else if after[0] == COMMA then
              match DecodeMembers(after[1..])
              case Fail => Fail
              case Ok(ms, rest) => Ok([m] + ms, rest)
            else Fail
    decreases m.value, 3
  {
    MemberRoundTrip(m, after);
  }

  lemma {:induction false} MembersRoundTrip(ms: seq<Member>, k: Text)
    requires ms != [] && forall i :: 0 <= i < |ms| ==> Defined(ms[i].value)
    ensures DecodeMembers(PrintMembers(ms, k)) == Ok(ms, k)
    decreases ms, 0
  {
    var m := ms[0];
    assert Defined(m.value);
    if |ms| == 1 {
      var after := [RBRACE] + k;
      DecodeMembersStep(m, after);
      assert after[1..] == k && ms == [m];
    } else {
      var more := PrintMembers(ms[1..], k);
      var after := [COMMA] + more;
      DecodeMembersStep(m, after);
      MembersRoundTrip(ms[1..], k);
      assert after[1..] == more && ms == [m] + ms[1..];
    }
  }

  /** Reading what `JSON.stringify` wrote gives the value without its `undefined` parts. */
  lemma StringifyRoundTrip(v: Value)
    requires WellFormed(v)
    ensures Decode(Stringify(v)) == Some(Strip(v))
  {
    ValueRoundTrip(Strip(v), []);
  }

  // ---------- Property access ----------

  function Find(ms: seq<Member>, key: Text): Value {
    if ms == [] then Undefined
    else if ms[0].key == key then ms[0].value
    else Find(ms[1..], key)
  }

  /** `value.key` on anything but `null` and `undefined`. */
  function Field(v: Value, key: Text): Value {
    if v.Obj? then Find(v.members, key) else Undefined
  }

  lemma {:induction false} FindAt(ms: seq<Member>, i: nat)
    requires i < |ms| && DistinctKeys(ms)
    ensures Find(ms, ms[i].key) == ms[i].value
  {
    if i == 0 {
    } else {
      assert ms[0].key != ms[i].key;
      FindAt(ms[1..], i - 1);
    }
  }

  /** What an optional field reads as after a trip through the text. */
  function Kept(v: Value): Value {
    if v.Undefined? then Undefined else Strip(v)
  }

  /** Dropping `undefined` members does not change what property access finds. */
  lemma {:induction false} FindStripped(ms: seq<Member>, key: Text)
    requires DistinctKeys(ms)
    ensures Find(StripMembers(ms), key) == Kept(Find(ms, key))
  {
    if ms == [] {
    } else {
      FindStripped(ms[1..], key);
      var r := StripMembers(ms);
      if ms[0].value.Undefined? {
        if ms[0].key == key {
          FindMissing(ms[1..], key);
        }
      } else {
        assert r[1..] == StripMembers(ms[1..]);
      }
    }
  }

  lemma {:induction false} FindMissing(ms: seq<Member>, key: Text)
    requires forall i :: 0 <= i < |ms| ==> ms[i].key != key
    ensures Find(ms, key) == Undefined
  {
    if ms == [] {
    } else {
      FindMissing(ms[1..], key);
    }
  }

  /** A value that came from a text is not changed by stripping. */
  lemma {:induction false} StripDefined(v: Value)
    requires Defined(v)
    ensures Strip(v) == v
    decreases v, 1
  {
    match v
    case Arr(items) => StripDefinedItems(items);
    case Obj(ms) => StripDefinedMembers(ms);
    case _ =>
  }

  lemma {:induction false} StripDefinedItems(items: seq<Value>)
    requires forall i :: 0 <= i < |items| ==> Defined(items[i])
    ensures StripItems(items) == items
    decreases items, 0
  {
    if items == [] {
    } else {
      assert Defined(items[0]);
      StripDefined(items[0]);
      StripDefinedItems(items[1..]);
    }
  }

  lemma {:induction false} StripDefinedMembers(ms: seq<Member>)
    requires forall i :: 0 <= i < |ms| ==> Defined(ms[i].value)
    ensures StripMembers(ms) == ms
    decreases ms, 0
  {
    if ms == [] {
    } else {
      assert Defined(ms[0].value);
      StripDefined(ms[0].value);
      StripDefinedMembers(ms[1..]);
    }
  }

  /** `{...value, [key]: x}` */
  function SetField(ms: seq<Member>, key: Text, x: Value): seq<Member> {
    if ms == [] then [Member(key, x)]
    else if ms[0].key == key then [Member(key, x)] + ms[1..]
    else [ms[0]] + SetField(ms[1..], key, x)
  }

  lemma {:induction false} SetFieldFind(ms: seq<Member>, key: Text, x: Value, k: Text)
    ensures Find(SetField(ms, key, x), k) == if k == key then x else Find(ms, k)
  {
    if ms != [] && ms[0].key != key {
      SetFieldFind(ms[1..], key, x, k);
    }
  }

  lemma {:induction false} SetFieldDefined(ms: seq<Member>, key: Text, x: Value)
    requires Defined(x) && Defined(Obj(ms))
    ensures Defined(Obj(SetField(ms, key, x)))
  {
    if ms != [] && ms[0].key != key {
      SetFieldDefined(ms[1..], key, x);
      assert forall i :: 0 <= i < |ms[1..]| ==> ms[1..][i] == ms[i + 1];
    }
  }

  /** Setting a field to the value it has changes nothing. */
  lemma {:induction false} SetFieldSame(ms: seq<Member>, key: Text, x: Value)
    requires Find(ms, key) == x && !x.Undefined?
    ensures SetField(ms, key, x) == ms
  {
    if ms[0].key != key {
      SetFieldSame(ms[1..], key, x);
    }
  }
}
