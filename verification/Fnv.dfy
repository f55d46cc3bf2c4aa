/** `hashSealPolicyJson`: FNV-1a over code units, in the language's signed 32-bit arithmetic. */
module Fnv {
  import opened Text
  import opened Hex

  const TWO32: int := 0x1_0000_0000
  const OFFSET: int := 0x811c9dc5
  const PRIME: int := 0x01000193

  /** The inverse of the prime modulo 2^32. */
  const INVERSE: int := 0x359c449b

  type Word = n: int | 0 <= n < 0x1_0000_0000

  // ---------- Machine arithmetic ----------

  /** A number reduced to 32 bits, as the bit operators do. */
  function ToUint32(x: int): Word { x % TWO32 }

  /** A 32-bit word read as a signed number. */
  function Signed(w: Word): int { if w < 0x8000_0000 then w else w - TWO32 }

  /** Exclusive or of the binary expansions of two numbers below 2^bits. */
  function XorBits(a: nat, b: nat, bits: nat): nat {
    if bits == 0 then 0
    else (if a % 2 == b % 2 then 0 else 1) + 2 * XorBits(a / 2, b / 2, bits - 1)
  }

  function Pow2(n: nat): (r: nat)
    ensures r > 0
  {
    if n == 0 then 1 else 2 * Pow2(n - 1)
  }

  /** Bit `k` of a number. */
  function Bit(n: nat, k: nat): nat {
    n / Pow2(k) % 2
  }

  /** The higher bits of a number are the bits of its half. */
  lemma BitOfHalf(n: nat, k: nat)
    requires k > 0
    ensures Bit(n, k) == Bit(n / 2, k - 1)
  {
    HalfTwice(n, Pow2(k - 1));
  }

  lemma HalfTwice(n: nat, d: nat)
    requires d > 0
    ensures n / (2 * d) == n / 2 / d
  {
    var q, r := n / 2 / d, n / 2 % d;
    assert n == 2 * (q * d + r) + n % 2;
    assert 2 * r + n % 2 < 2 * d;
    QuotientOf(n, 2 * d, q, 2 * r + n % 2);
  }

  lemma MultipleAway(e: int, d: int)
    requires d > 0
    ensures e >= 1 ==> e * d >= d
    ensures e <= -1 ==> e * d <= -d
  {
  }

  lemma QuotientOf(n: nat, d: nat, q: nat, r: nat)
    requires 0 <= r < d && n == q * d + r
    ensures n / d == q
  {
    var e := n / d - q;
    assert e * d == r - n % d;
    MultipleAway(e, d);
  }

  /** Exclusive or, bit by bit: a bit is set exactly where the two numbers have different bits. */
  lemma {:induction false} XorBitwise(a: nat, b: nat, bits: nat, k: nat)
    requires k < bits
    ensures Bit(XorBits(a, b, bits), k) == 1 <==> Bit(a, k) != Bit(b, k)
    decreases bits
  {
    var x := XorBits(a, b, bits);
    if k == 0 {
      assert Pow2(0) == 1;
    } else {
      assert x / 2 == XorBits(a / 2, b / 2, bits - 1);
      XorBitwise(a / 2, b / 2, bits - 1, k - 1);
      BitOfHalf(x, k);
      BitOfHalf(a, k);
      BitOfHalf(b, k);
    }
  }

  lemma {:induction false} XorInRange(a: nat, b: nat, bits: nat)
    ensures XorBits(a, b, bits) < Pow2(bits)
  {
    if bits == 0 {
    } else {
      XorInRange(a / 2, b / 2, bits - 1);
    }
  }

  lemma {:induction false} XorInjective(a: nat, a': nat, b: nat, bits: nat)
    requires a < Pow2(bits) && a' < Pow2(bits)
    requires XorBits(a, b, bits) == XorBits(a', b, bits)
    ensures a == a'
  {
    if bits == 0 {
    } else {
      XorInjective(a / 2, a' / 2, b / 2, bits - 1);
    }
  }

  lemma {:induction false} XorCommutes(a: nat, b: nat, bits: nat)
    ensures XorBits(a, b, bits) == XorBits(b, a, bits)
  {
    if bits == 0 {
    } else {
      XorCommutes(a / 2, b / 2, bits - 1);
    }
  }

  lemma Pow2Of32()
    ensures Pow2(32) == TWO32
  {
    assert Pow2(8) == 256;
    assert Pow2(16) == 0x1_0000 by { assert Pow2(12) == 4096; }
    assert Pow2(24) == 0x100_0000 by { assert Pow2(20) == 0x10_0000; }
    assert Pow2(28) == 0x1000_0000;
  }

  /** The exclusive or of two words. */
  function Xor(a: Word, b: Word): Word {
    XorInRange(a, b, 32);
    Pow2Of32();
    XorBits(a, b, 32)
  }

  /** `a ^ b` */
  function JsXor(a: int, b: int): int {
    Signed(Xor(ToUint32(a), ToUint32(b)))
  }

  /** `Math.imul(a, b)` */
  function JsImul(a: int, b: int): int {
    Signed(ToUint32(a * b))
  }

  /** The operator on words: bit by bit, and no more bits than 32. */
  lemma XorOfWords(a: Word, b: Word, k: nat)
    requires k < 32
    ensures Bit(Xor(a, b), k) == 1 <==> Bit(a, k) != Bit(b, k)
  {
    XorBitwise(a, b, 32, k);
  }

  // ---------- The hash on words ----------

  /** One step of FNV-1a: ((h xor c) * 16777619) mod 2^32. */
  function Step(h: Word, c: CodeUnit): Word {
    Xor(h, c) * PRIME % TWO32
  }

  function HashFrom(h: Word, s: Text): Word
    decreases s
  {
    if s == [] then h else HashFrom(Step(h, s[0]), s[1..])
  }

  const LABEL: Text := Ascii("fnv1a32:")

  function HashPolicyText(s: Text): Text {
    LABEL + PaddedHex(HashFrom(OFFSET, s), 8)
  }

  lemma ModShift(a: int, q: int)
    ensures (a + q * TWO32) % TWO32 == a % TWO32
  {
  }

  lemma SignedWord(w: Word)
    ensures ToUint32(Signed(w)) == w
  {
  }

  /** Reading a word as signed does not change its product modulo 2^32. */
  lemma SignedProduct(w: Word)
    ensures Signed(w) * PRIME % TWO32 == w * PRIME % TWO32
  {
    if w >= 0x8000_0000 {
      assert Signed(w) * PRIME == w * PRIME + (-PRIME) * TWO32;
      ModShift(w * PRIME, -PRIME);
    }
  }

  lemma {:induction false} HashSnoc(h: Word, s: Text, c: CodeUnit)
    ensures HashFrom(h, s + [c]) == Step(HashFrom(h, s), c)
    decreases s
  {
    if s == [] {
      assert (s + [c])[1..] == [];
    } else {
      assert (s + [c])[1..] == s[1..] + [c];
      HashSnoc(Step(h, s[0]), s[1..], c);
    }
  }

  /** The source's loop over signed numbers computes the unsigned FNV-1a hash. */
  method HashSealPolicyJson(value: Text) returns (r: Text)
    ensures r == HashPolicyText(value)
  {
    var hash := OFFSET;
    for index := 0 to |value|
      invariant ToUint32(hash) == HashFrom(OFFSET, value[..index])
    {
      assert value[..index + 1] == value[..index] + [value[index]];
      HashSnoc(OFFSET, value[..index], value[index]);
      var mixed := JsXor(hash, value[index]);
      SignedProduct(Xor(ToUint32(hash), value[index]));
      hash := JsImul(mixed, PRIME);
      SignedWord(ToUint32(mixed * PRIME));
    }
    assert value[..|value|] == value;
    r := LABEL + PaddedHex(ToUint32(hash), 8);
  }

  // ---------- Collisions ----------

  lemma InverseWorks(x: Word)
    ensures x * PRIME % TWO32 * INVERSE % TWO32 == x
  {
    var q := x * PRIME / TWO32;
    var m := x * PRIME % TWO32;
    var shift := x * 0x359c99 - q * INVERSE;
    assert m * INVERSE == x + shift * TWO32;
    ModShift(x, shift);
  }

  lemma SameStep(h: Word, h': Word, c: CodeUnit, c': CodeUnit)
    requires Step(h, c) == Step(h', c')
    ensures c == c' <==> h == h'
  {
    InverseWorks(Xor(h, c));
    InverseWorks(Xor(h', c'));
    Pow2Of32();
    if c == c' {
      XorInjective(h, h', c, 32);
    }
    if h == h' {
      XorCommutes(h, c, 32);
      XorCommutes(h, c', 32);
      XorInjective(c, c', h, 32);
    }
  }

  /** For one code unit, the step is injective in the hash; for one hash, in the code unit. */
  lemma StepInjective(h: Word, h': Word, c: CodeUnit, c': CodeUnit)
    ensures Step(h, c) == Step(h', c') ==> (c == c' <==> h == h')
  {
    if Step(h, c) == Step(h', c') {
      SameStep(h, h', c, c');
    }
  }

  lemma {:induction false} HashInjectiveInSeed(h: Word, h': Word, s: Text)
    requires HashFrom(h, s) == HashFrom(h', s)
    ensures h == h'
    decreases s
  {
    if s == [] {
    } else {
      var g, g' := Step(h, s[0]), Step(h', s[0]);
      HashInjectiveInSeed(g, g', s[1..]);
      StepInjective(h, h', s[0], s[0]);
    }
  }

  lemma {:induction false} HashSplit(h: Word, s: Text, t: Text)
    ensures HashFrom(h, s + t) == HashFrom(HashFrom(h, s), t)
    decreases s
  {
    if s == [] {
      assert s + t == t;
    } else {
      assert (s + t)[1..] == s[1..] + t;
      HashSplit(Step(h, s[0]), s[1..], t);
    }
  }

  /** The printed hash determines the 32-bit hash. */
  lemma HashTextInjective(s: Text, t: Text)
    ensures HashPolicyText(s) == HashPolicyText(t) <==> HashFrom(OFFSET, s) == HashFrom(OFFSET, t)
  {
    PaddedHexReadsBack(HashFrom(OFFSET, s), 8);
    PaddedHexReadsBack(HashFrom(OFFSET, t), 8);
    assert HashPolicyText(s)[|LABEL|..] == PaddedHex(HashFrom(OFFSET, s), 8);
    assert HashPolicyText(t)[|LABEL|..] == PaddedHex(HashFrom(OFFSET, t), 8);
  }

  /** Changing exactly one code unit of a text always changes its hash. */
  lemma OneUnitChangesHash(s: Text, i: nat, c: CodeUnit)
    requires i < |s| && s[i] != c
    ensures HashPolicyText(s) != HashPolicyText(s[i := c])
  {
    var t := s[i := c];
    var h := HashFrom(OFFSET, s[..i]);
    assert s == s[..i] + ([s[i]] + s[i + 1..]) && t == s[..i] + ([c] + s[i + 1..]);
    HashSplit(OFFSET, s[..i], [s[i]] + s[i + 1..]);
    HashSplit(OFFSET, s[..i], [c] + s[i + 1..]);
    assert ([s[i]] + s[i + 1..])[1..] == s[i + 1..] && ([c] + s[i + 1..])[1..] == s[i + 1..];
    if HashPolicyText(s) == HashPolicyText(t) {
      HashTextInjective(s, t);
      HashInjectiveInSeed(Step(h, s[i]), Step(h, c), s[i + 1..]);
      StepInjective(h, h, s[i], c);
    }
  }
}
