/** Base-16 text: `toString(16).padStart(width, "0")`, byte strings, and the scoped Seal ids. */
module Hex {
  import opened Text
  import opened Json

  const ZERO: CodeUnit := 48

  // ---------- Numbers ----------

  /** `n.toString(16)` */
  function ToBase16(n: nat): (t: Text)
    ensures t != []
    decreases n
  {
    if n < 16 then [HexDigit(n)] else ToBase16(n / 16) + [HexDigit(n % 16)]
  }

  /** `t.padStart(width, "0")` */
  function PadStart(t: Text, width: nat): Text
    decreases width - |t|
  {
    if |t| >= width then t else PadStart([ZERO] + t, width)
  }

  function Pow16(w: nat): nat {
    if w == 0 then 1 else 16 * Pow16(w - 1)
  }

  /** The number a run of hex digits stands for. */
  function NumberOf(t: Text): nat {
    if t == [] then 0
    else
      match HexValue(t[|t| - 1])
      case Some(d) => 16 * NumberOf(t[..|t| - 1]) + d
      case None => 16 * NumberOf(t[..|t| - 1])
  }

  lemma {:induction false} Base16RoundTrip(n: nat)
    ensures NumberOf(ToBase16(n)) == n
    decreases n
  {
    var t := ToBase16(n);
    if n < 16 {
      DigitRoundTrip(n);
      assert t[..|t| - 1] == [];
    } else {
      Base16RoundTrip(n / 16);
      DigitRoundTrip(n % 16);
      assert t[..|t| - 1] == ToBase16(n / 16);
    }
  }

  lemma {:induction false} LeadingZero(t: Text)
    ensures NumberOf([ZERO] + t) == NumberOf(t)
  {
    var z := [ZERO] + t;
    if t == [] {
      assert z[..0] == [];
    } else {
      assert z[..|z| - 1] == [ZERO] + t[..|t| - 1];
      LeadingZero(t[..|t| - 1]);
    }
  }

  lemma {:induction false} PadKeepsNumber(t: Text, width: nat)
    ensures NumberOf(PadStart(t, width)) == NumberOf(t)
    decreases width - |t|
  {
    if |t| >= width {
    } else {
      LeadingZero(t);
      PadKeepsNumber([ZERO] + t, width);
    }
  }

  lemma {:induction false} PadLength(t: Text, width: nat)
    requires |t| <= width
    ensures |PadStart(t, width)| == width
    decreases width - |t|
  {
    if |t| >= width {
    } else {
      PadLength([ZERO] + t, width);
    }
  }

  lemma {:induction false} Base16Length(n: nat, width: nat)
    requires 0 < width && n < Pow16(width)
    ensures |ToBase16(n)| <= width
  {
    if n < 16 {
    } else {
      assert Pow16(width) == 16 * Pow16(width - 1);
      assert width > 1 by { assert Pow16(0) == 1; }
      Base16Length(n / 16, width - 1);
    }
  }

  function PaddedHex(n: nat, width: nat): Text {
    PadStart(ToBase16(n), width)
  }

  /** A padded hex text has its full width and determines the number it was made from. */
  lemma PaddedHexReadsBack(n: nat, width: nat)
    ensures NumberOf(PaddedHex(n, width)) == n
    ensures 0 < width && n < Pow16(width) ==> |PaddedHex(n, width)| == width
  {
    Base16RoundTrip(n);
    PadKeepsNumber(ToBase16(n), width);
    if 0 < width && n < Pow16(width) {
      Base16Length(n, width);
      PadLength(ToBase16(n), width);
    }
  }

  // ---------- Byte strings ----------

  type Byte = n: int | 0 <= n < 256

  datatype Result<+T> = Success(value: T) | Failure

  const PREFIX: Text := [48, 120]  // "0x"

  /** `byte.toString(16).padStart(2, "0")` for every byte, joined. */
  function HexPairs(bytes: seq<Byte>): Text {
    if bytes == [] then [] else PaddedHex(bytes[0], 2) + HexPairs(bytes[1..])
  }

  function ToHex(bytes: seq<Byte>): Text {
    PREFIX + HexPairs(bytes)
  }

  /**
   `Number.parseInt` in base 16 of a two-unit slice, stored into a byte: leading white space, a
   sign are skipped, the longest run of digits counts, and NaN is stored as 0.
   */
  function ParsePair(a: CodeUnit, b: CodeUnit): Byte {
    match (HexValue(a), HexValue(b))
    case (Some(x), Some(y)) => 16 * x + y
    case (Some(x), None) => x
    case (None, Some(y)) =>
      if IsSpace(a) || a == 43 then y
      else if a == 45 then (if y == 0 then 0 else 256 - y)
      else 0
    case (None, None) => 0
  }

  /** The unit `c` is the hex digit of value `x`, in either case. */
  predicate DigitOf(c: CodeUnit, x: int) {
    0 <= x < 16 && (c == Ascii("0123456789abcdef")[x] || c == Ascii("0123456789ABCDEF")[x])
  }

  lemma DigitExactly(c: CodeUnit, x: int)
    ensures HexValue(c) == Some(x) <==> DigitOf(c, x)
  {
  }

  /** Two digits are their number, and a digit before another unit is its own. */
  lemma PairFromDigit(a: CodeUnit, b: CodeUnit, x: int)
    requires DigitOf(a, x)
    ensures forall y :: DigitOf(b, y) ==> ParsePair(a, b) == 16 * x + y
    ensures (forall y :: !DigitOf(b, y)) ==> ParsePair(a, b) == x
  {
    DigitExactly(a, x);
    forall y ensures HexValue(b) == Some(y) <==> DigitOf(b, y) {
      DigitExactly(b, y);
    }
  }

  /**
   A digit after white space or a plus sign is its own, and after a minus sign it is taken from a byte's 256;
   after any other unit it is not read.
   */
  lemma PairFromOther(a: CodeUnit, b: CodeUnit)
    requires forall x :: !DigitOf(a, x)
    ensures forall y :: DigitOf(b, y) ==>
              && (a in WHITE_SPACE || [a] == Ascii("+") ==> ParsePair(a, b) == y)
              && ([a] == Ascii("-") ==> (ParsePair(a, b) + y) % 256 == 0)
              && (a !in WHITE_SPACE && [a] != Ascii("+") && [a] != Ascii("-") ==> ParsePair(a, b) == 0)
    ensures (forall y :: !DigitOf(b, y)) ==> ParsePair(a, b) == 0
  {
    SpaceExactly(a);
    assert Ascii("+") == [43] && Ascii("-") == [45];
    forall y ensures (HexValue(a) == Some(y) <==> DigitOf(a, y)) && (HexValue(b) == Some(y) <==> DigitOf(b, y)) {
      DigitExactly(a, y);
      DigitExactly(b, y);
    }
  }

  function PairsToBytes(t: Text): (r: seq<Byte>)
    requires |t| % 2 == 0
    ensures |r| == |t| / 2
    ensures forall i :: 0 <= i < |r| ==> r[i] == ParsePair(t[2 * i], t[2 * i + 1])
  {
    if t == [] then [] else [ParsePair(t[0], t[1])] + PairsToBytes(t[2..])
  }

  /** The digits of an id: its text without one leading "0x". */
  function Digits(t: Text): Text {
    if StartsWith(t, PREFIX) then t[2..] else t
  }

  function BytesOf(t: Text): Result<seq<Byte>> {
    if |Digits(t)| % 2 != 0 then Failure else Success(PairsToBytes(Digits(t)))
  }

  /** `hexToBytes`, as the source fills its buffer. */
  method HexToBytes(value: Text) returns (r: Result<array<Byte>>)
    ensures r.Failure? <==> BytesOf(value).Failure?
    ensures r.Success? ==> fresh(r.value) && BytesOf(value) == Success(r.value[..])
  {
    var normalized := if StartsWith(value, PREFIX) then value[2..] else value;
    if |normalized| % 2 != 0 {
      return Failure;
    }
    var bytes := new Byte[|normalized| / 2];
    var index := 0;
    while index < |normalized|
      invariant 0 <= index <= |normalized| && index % 2 == 0
      invariant forall i :: 0 <= i < index / 2 ==> bytes[i] == ParsePair(normalized[2 * i], normalized[2 * i + 1])
    {
      bytes[index / 2] := ParsePair(normalized[index], normalized[index + 1]);
      index := index + 2;
    }
    assert bytes[..] == PairsToBytes(normalized);
    r := Success(bytes);
  }

  lemma PairRoundTrip(b: Byte)
    ensures |PaddedHex(b, 2)| == 2
    ensures ParsePair(PaddedHex(b, 2)[0], PaddedHex(b, 2)[1]) == b
  {
    assert Pow16(2) == 256 by { assert Pow16(1) == 16; }
    PaddedHexReadsBack(b, 2);
    if b < 16 {
      assert ToBase16(b) == [HexDigit(b)];
      assert PadStart([ZERO] + [HexDigit(b)], 2) == [ZERO, HexDigit(b)];
      DigitRoundTrip(b);
    } else {
      assert ToBase16(b / 16) == [HexDigit(b / 16)];
      assert PaddedHex(b, 2) == [HexDigit(b / 16), HexDigit(b % 16)];
      DigitRoundTrip(b / 16);
      DigitRoundTrip(b % 16);
    }
  }

  lemma {:induction false} PairsRoundTrip(bytes: seq<Byte>)
    ensures |HexPairs(bytes)| == 2 * |bytes|
    ensures PairsToBytes(HexPairs(bytes)) == bytes
  {
    if bytes == [] {
    } else {
      PairRoundTrip(bytes[0]);
      PairsRoundTrip(bytes[1..]);
      assert HexPairs(bytes)[2..] == HexPairs(bytes[1..]);
    }
  }

  /** `hexToBytes` undoes `toHex`. */
  lemma HexRoundTrip(bytes: seq<Byte>)
    ensures BytesOf(ToHex(bytes)) == Success(bytes)
  {
    PairsRoundTrip(bytes);
    assert ToHex(bytes)[..2] == PREFIX && ToHex(bytes)[2..] == HexPairs(bytes);
  }

  // ---------- Scoped ids ----------

  /** `createProjectScopedSealId` and `createOwnerScopedSealId`: the id's bytes, then the nonce. */
  function ScopedId(id: Text, nonce: seq<Byte>): Result<Text> {
    match BytesOf(id)
    case Failure => Failure
    case Success(bytes) => Success(ToHex(bytes + nonce))
  }

  method CreateScopedSealId(id: Text, nonce: seq<Byte>) returns (r: Result<Text>)
    ensures r == ScopedId(id, nonce)
  {
    var decoded := HexToBytes(id);
    if decoded.Failure? {
      return Failure;
    }
    var bytes := decoded.value;
    ghost var prefix := bytes[..];
    assert BytesOf(id) == Success(prefix);
    var merged := new Byte[bytes.Length + |nonce|];
    forall i | 0 <= i < bytes.Length {
      merged[i] := bytes[i];
    }
    forall i | 0 <= i < |nonce| {
      merged[bytes.Length + i] := nonce[i];
    }
    assert merged[..] == prefix + nonce;
    r := Success(ToHex(merged[..]));
  }

  /** `doesSealIdMatchProject` and `doesSealIdMatchOwner`; a malformed id throws. */
  function IdMatches(objectId: Text, id: Text): Result<bool> {
    match (BytesOf(objectId), BytesOf(id))
    case (Success(whole), Success(scope)) =>
      Success(|scope| <= |whole| && forall i :: 0 <= i < |scope| ==> whole[i] == scope[i])
    case _ => Failure
  }

  /** A scoped id is made exactly when the scope decodes, and then it matches that scope, whatever the nonce. */
  lemma ScopedIdMatches(id: Text, nonce: seq<Byte>)
    ensures ScopedId(id, nonce).Success? <==> |Digits(id)| % 2 == 0
    ensures ScopedId(id, nonce).Success? ==> IdMatches(ScopedId(id, nonce).value, id) == Success(true)
  {
    if BytesOf(id).Success? {
      HexRoundTrip(BytesOf(id).value + nonce);
    }
  }

  /** Scopes of one byte length that match one object id are the same bytes. */
  lemma MatchDeterminesScope(objectId: Text, a: Text, b: Text)
    requires IdMatches(objectId, a) == Success(true) && IdMatches(objectId, b) == Success(true)
    requires |Digits(a)| == |Digits(b)|
    ensures BytesOf(a) == BytesOf(b)
  {
    var x, y := BytesOf(a).value, BytesOf(b).value;
    assert |x| == |y|;
    assert x == y;
  }

  /** Different nonces of one length give different ids. */
  lemma ScopedIdFresh(id: Text, n1: seq<Byte>, n2: seq<Byte>)
    requires |Digits(id)| % 2 == 0 && n1 != n2 && |n1| == |n2|
    ensures ScopedId(id, n1) != ScopedId(id, n2)
  {
    var bytes := BytesOf(id).value;
    HexRoundTrip(bytes + n1);
    HexRoundTrip(bytes + n2);
    assert (bytes + n1)[|bytes|..] == n1 && (bytes + n2)[|bytes|..] == n2;
  }
}
