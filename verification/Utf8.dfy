/**
 UTF-8 as `TextEncoder` produces it (RFC 3629, section 3): a lone surrogate is
 replaced by U+FFFD, every other code point is encoded in one to four bytes.
 On well-formed text the encoding loses nothing.
 */
module Utf8 {
  import opened Texts

  newtype Byte = b: int | 0 <= b < 256

  type Bytes = seq<Byte>

  function EncodeUnit(u: CodeUnit): Bytes {
    var n := u as int;
    if n < 0x80 then [n as Byte]
    else if n < 0x800 then [(0xC0 + n / 64) as Byte, (0x80 + n % 64) as Byte]
    else if IsHighSurrogate(u) || IsLowSurrogate(u) then [0xEF, 0xBF, 0xBD]
    else [(0xE0 + n / 4096) as Byte, (0x80 + n / 64 % 64) as Byte, (0x80 + n % 64) as Byte]
  }

  function Scalar(high: CodeUnit, low: CodeUnit): (n: int)
    requires IsHighSurrogate(high) && IsLowSurrogate(low)
    ensures 0x1_0000 <= n <= 0x10_FFFF
  {
    0x1_0000 + (high as int - 0xD800) * 1024 + (low as int - 0xDC00)
  }

  function EncodePair(high: CodeUnit, low: CodeUnit): Bytes
    requires IsHighSurrogate(high) && IsLowSurrogate(low)
  {
    var n := Scalar(high, low);
    [(0xF0 + n / 262144) as Byte, (0x80 + n / 4096 % 64) as Byte, (0x80 + n / 64 % 64) as Byte, (0x80 + n % 64) as Byte]
  }

  function EncodeStep(t: Text): Bytes
    requires t != []
  {
    if StepLength(t) == 2 then EncodePair(t[0], t[1]) else EncodeUnit(t[0])
  }

  function Encode(t: Text): (r: Bytes) {
    if t == [] then [] else EncodeStep(t) + Encode(t[StepLength(t)..])
  }

  function ByteLength(t: Text): nat {
    |Encode(t)|
  }

  /** No lone surrogate: the text is a sequence of Unicode scalar values. */
  predicate IsWellFormed(t: Text) {
    t == [] || ((StepLength(t) == 2 || !(IsHighSurrogate(t[0]) || IsLowSurrogate(t[0]))) && IsWellFormed(t[StepLength(t)..]))
  }

  /** Number of bytes the first code point takes, read off the first byte. */
  function LeadLength(b: Byte): nat {
    if b < 0x80 then 1 else if b < 0xE0 then 2 else if b < 0xF0 then 3 else 4
  }

  lemma {:induction false} StepIsDelimited(t: Text)
    requires t != []
    ensures |EncodeStep(t)| > 0 && |EncodeStep(t)| == LeadLength(EncodeStep(t)[0])
  {
  }

  lemma {:induction false} SixBitGroups(n: int)
    requires 0 <= n
    ensures n == 262144 * (n / 262144) + 4096 * (n / 4096 % 64) + 64 * (n / 64 % 64) + n % 64
  {
    assert n / 64 / 64 == n / 4096;
    assert n / 4096 / 64 == n / 262144;
  }

  lemma {:induction false} SameGroups(n: int, m: int)
    requires 0 <= n && 0 <= m && n / 4096 == m / 4096 && n / 64 % 64 == m / 64 % 64 && n % 64 == m % 64
    ensures n == m
  {
    assert n / 64 / 64 == n / 4096 && m / 64 / 64 == m / 4096;
  }

  lemma {:induction false} UnitIsInjective(u: CodeUnit, v: CodeUnit)
    requires EncodeUnit(u) == EncodeUnit(v)
    requires !IsHighSurrogate(u) && !IsLowSurrogate(u) && !IsHighSurrogate(v) && !IsLowSurrogate(v)
    ensures u == v
  {
    var a, b := EncodeUnit(u), EncodeUnit(v);
    assert a[0] == b[0] && a[|a| - 1] == b[|b| - 1];
    if |a| == 3 {
      assert a[1] == b[1];
      SameGroups(u as int, v as int);
    }
  }

  lemma {:induction false} PairIsInjective(h: CodeUnit, l: CodeUnit, h': CodeUnit, l': CodeUnit)
    requires IsHighSurrogate(h) && IsLowSurrogate(l) && IsHighSurrogate(h') && IsLowSurrogate(l')
    requires EncodePair(h, l) == EncodePair(h', l')
    ensures h == h' && l == l'
  {
    var a, b := EncodePair(h, l), EncodePair(h', l');
    assert a[0] == b[0] && a[1] == b[1] && a[2] == b[2] && a[3] == b[3];
    SixBitGroups(Scalar(h, l));
    SixBitGroups(Scalar(h', l'));
    assert Scalar(h, l) == Scalar(h', l');
  }

  lemma {:induction false} EncodeIsInjective(a: Text, b: Text)
    requires IsWellFormed(a) && IsWellFormed(b) && Encode(a) == Encode(b)
    ensures a == b
    decreases |a|
  {
    if a != [] {
      StepIsDelimited(a);
    }
    if b != [] {
      StepIsDelimited(b);
    }
    if a != [] && b != [] {
      var p, q := EncodeStep(a), EncodeStep(b);
      var a', b' := a[StepLength(a)..], b[StepLength(b)..];
      assert Encode(a)[0] == p[0] && Encode(b)[0] == q[0];
      assert Encode(a)[..|p|] == p && Encode(b)[..|q|] == q;
      CancelPrefix(p, Encode(a'), Encode(b'));
      if StepLength(a) == 2 {
        assert |EncodeUnit(b[0])| < 4;
        PairIsInjective(a[0], a[1], b[0], b[1]);
      } else {
        assert |EncodeUnit(a[0])| < 4;
        UnitIsInjective(a[0], b[0]);
      }
      assert a[..StepLength(a)] == b[..StepLength(b)];
      EncodeIsInjective(a', b');
      assert a == a[..StepLength(a)] + a' && b == b[..StepLength(b)] + b';
    }
  }

  // ----- the table of RFC 3629, section 3 -----

  /** A byte that carries six bits of a character after its first byte. */
  predicate IsContinuation(b: Byte) {
    0x80 <= b < 0xC0
  }

  function Low(b: Byte, lead: int): int {
    b as int - lead
  }

  /** The bytes are the one shortest form of the scalar value. */
  predicate WritesScalar(b: Bytes, n: int) {
    || (|b| == 1 && 0 <= n < 0x80 && b[0] as int == n)
    || (|b| == 2 && 0x80 <= n < 0x800 && 0xC0 <= b[0] < 0xE0 && IsContinuation(b[1]) && n == Low(b[0], 0xC0) * 64 + Low(b[1], 0x80))
    || (|b| == 3 && 0x800 <= n < 0x1_0000 && 0xE0 <= b[0] < 0xF0 && IsContinuation(b[1]) && IsContinuation(b[2])
        && n == Low(b[0], 0xE0) * 4096 + Low(b[1], 0x80) * 64 + Low(b[2], 0x80))
    || (|b| == 4 && 0x1_0000 <= n < 0x11_0000 && 0xF0 <= b[0] < 0xF8 && IsContinuation(b[1]) && IsContinuation(b[2]) && IsContinuation(b[3])
        && n == Low(b[0], 0xF0) * 262144 + Low(b[1], 0x80) * 4096 + Low(b[2], 0x80) * 64 + Low(b[3], 0x80))
  }

  /** The scalar value that a text starts with: of a pair, of one unit, or the replacement character for a lone surrogate. */
  predicate StartsWithScalar(t: Text, n: int)
    requires t != []
  {
    if StepLength(t) == 2 then n == (t[0] as int - 0xD800) * 1024 + (t[1] as int - 0xDC00) + 0x1_0000
    else if 0xD800 <= t[0] <= 0xDFFF then n == 0xFFFD
    else n == t[0] as int
  }

  /** The bytes write the code points of the text one after the other. */
  ghost predicate WritesText(b: Bytes, t: Text)
    decreases |t|
  {
    if t == [] then b == []
    else exists k: nat, n :: k <= |b| && StartsWithScalar(t, n) && WritesScalar(b[..k], n) && WritesText(b[k..], t[StepLength(t)..])
  }

  lemma {:induction false} UnitWrites(u: CodeUnit)
    ensures WritesScalar(EncodeUnit(u), if IsHighSurrogate(u) || IsLowSurrogate(u) then 0xFFFD else u as int)
  {
    var n := u as int;
    if n < 0x800 {
      assert n == n / 64 * 64 + n % 64;
    } else {
      SixBitGroups(n);
    }
  }

  lemma {:induction false} PairWrites(high: CodeUnit, low: CodeUnit)
    requires IsHighSurrogate(high) && IsLowSurrogate(low)
    ensures WritesScalar(EncodePair(high, low), (high as int - 0xD800) * 1024 + (low as int - 0xDC00) + 0x1_0000)
  {
    SixBitGroups(Scalar(high, low));
  }

  /** The encoding writes the text as the table says. */
  lemma {:induction false} EncodeWrites(t: Text)
    ensures WritesText(Encode(t), t)
  {
    hide WritesScalar, EncodeUnit, EncodePair;
    if t != [] {
      var rest, b := t[StepLength(t)..], EncodeStep(t);
      EncodeWrites(rest);
      assert Encode(t)[..|b|] == b && Encode(t)[|b|..] == Encode(rest);
      if StepLength(t) == 2 {
        PairWrites(t[0], t[1]);
        assert StartsWithScalar(t, (t[0] as int - 0xD800) * 1024 + (t[1] as int - 0xDC00) + 0x1_0000);
      } else {
        UnitWrites(t[0]);
        assert StartsWithScalar(t, if IsHighSurrogate(t[0]) || IsLowSurrogate(t[0]) then 0xFFFD else t[0] as int);
      }
    }
  }

  /** UTF-8 never takes fewer bytes than UTF-16 takes units. */
  lemma {:induction false} EncodingIsNoShorter(t: Text)
    ensures |t| <= ByteLength(t)
  {
    if t != [] {
      EncodingIsNoShorter(t[StepLength(t)..]);
    }
  }

  /** Concatenation cannot lengthen an encoding; a pair that meets at the seam shortens it. */
  lemma {:induction false} EncodeConcat(a: Text, b: Text)
    ensures ByteLength(a + b) <= ByteLength(a) + ByteLength(b)
    decreases |a|
  {
    var t := a + b;
    if a == [] {
      assert t == b;
    } else if StepLength(t) <= |a| {
      assert StepLength(t) == StepLength(a) && EncodeStep(t) == EncodeStep(a);
      assert t[StepLength(t)..] == a[StepLength(a)..] + b;
      EncodeConcat(a[StepLength(a)..], b);
    } else {
      assert |a| == 1 && a[1..] == [];
      assert t[2..] == b[1..];
      assert StepLength(b) == 1;
    }
  }

  lemma {:induction false} PlainBytes(t: Text)
    requires forall i :: 0 <= i < |t| ==> t[i] < 0x80
    ensures |Encode(t)| == |t| && forall i :: 0 <= i < |t| ==> Encode(t)[i] as int == t[i] as int
  {
    if t != [] {
      PlainBytes(t[1..]);
    }
  }
}
