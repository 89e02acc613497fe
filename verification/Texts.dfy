/**
 Text as JavaScript sees it: a sequence of UTF-16 code units. Dafny's own `char`
 excludes the surrogate code points, which several of the modelled functions
 have to tell apart, so text is a sequence of numbers below 2^16 here.
 */
module Texts {

  newtype CodeUnit = u: int | 0 <= u < 0x1_0000

  type Text = seq<CodeUnit>

  predicate IsAscii(s: string) {
    forall i :: 0 <= i < |s| ==> s[i] as int < 128
  }

  /** The code units of an ASCII literal. */
  function Ascii(s: string): (t: Text)
    requires IsAscii(s)
    ensures |t| == |s| && forall i :: 0 <= i < |s| ==> t[i] as int == s[i] as int
  {
    if s == "" then [] else [s[0] as CodeUnit] + Ascii(s[1..])
  }

  /** `Array.prototype.join`. */
  function Join(parts: seq<Text>, separator: Text): (t: Text) {
    if |parts| == 0 then []
    else if |parts| == 1 then parts[0]
    else parts[0] + separator + Join(parts[1..], separator)
  }

  predicate NoRepeats(texts: seq<Text>) {
    forall i, j :: 0 <= i < j < |texts| ==> texts[i] != texts[j]
  }

  /** `new Set(texts)`. */
  function ToSet(texts: seq<Text>): set<Text> {
    set t | t in texts
  }

  lemma {:induction false} SetSize(texts: seq<Text>)
    ensures |ToSet(texts)| <= |texts|
    ensures |ToSet(texts)| == |texts| <==> NoRepeats(texts)
  {
    if texts != [] {
      var front, last := texts[..|texts| - 1], texts[|texts| - 1];
      SetSize(front);
      assert ToSet(texts) == ToSet(front) + {last};
      if last in front {
        var i :| 0 <= i < |front| && front[i] == last;
        assert texts[i] == texts[|texts| - 1];
        assert ToSet(texts) == ToSet(front);
      }
    }
  }

  /** `needle` occurs in `t` at offset `at`. */
  predicate OccursAt(t: Text, needle: Text, at: nat) {
    at + |needle| <= |t| && t[at..at + |needle|] == needle
  }

  /** `String.prototype.startsWith`. */
  predicate StartsWith(t: Text, prefix: Text) {
    |prefix| <= |t| && t[..|prefix|] == prefix
  }

  /** JavaScript's `<` on strings: code units compared from the left. */
  predicate Less(a: Text, b: Text) {
    |b| > 0 && (|a| == 0 || a[0] < b[0] || (a[0] == b[0] && Less(a[1..], b[1..])))
  }

  lemma {:induction false} LessIsTotal(a: Text, b: Text)
    ensures a == b || Less(a, b) || Less(b, a)
  {
    if |a| > 0 && |b| > 0 && a[0] == b[0] {
      LessIsTotal(a[1..], b[1..]);
      if a[1..] == b[1..] {
        assert a == [a[0]] + a[1..] && b == [b[0]] + b[1..];
      }
    }
  }

  lemma {:induction false} LessIsAsymmetric(a: Text, b: Text)
    requires Less(a, b)
    ensures !Less(b, a)
  {
    if |a| > 0 && a[0] == b[0] {
      LessIsAsymmetric(a[1..], b[1..]);
    }
  }

  lemma {:induction false} LessIsTransitive(a: Text, b: Text, c: Text)
    requires Less(a, b) && Less(b, c)
    ensures Less(a, c)
  {
    if |a| > 0 && a[0] == b[0] && b[0] == c[0] {
      LessIsTransitive(a[1..], b[1..], c[1..]);
    }
  }

  /** Digits are the code units 48 to 57. */
  predicate IsDigit(u: CodeUnit) {
    48 <= u <= 57
  }

  predicate AllDigits(t: Text) {
    forall i :: 0 <= i < |t| ==> IsDigit(t[i])
  }

  /** `String(n)` for a non-negative integer. */
  function NatText(n: nat): (t: Text)
    ensures |t| > 0 && AllDigits(t)
  {
    if n < 10 then [(48 + n) as CodeUnit] else NatText(n / 10) + [(48 + n % 10) as CodeUnit]
  }

  /** The number a run of decimal digits denotes. */
  function NatValue(t: Text): nat
    requires AllDigits(t)
  {
    if |t| == 0 then 0 else 10 * NatValue(t[..|t| - 1]) + (t[|t| - 1] as int - 48)
  }

  /** The figure for one digit, in either case. */
  predicate IsFigure(u: CodeUnit, digit: int) {
    if digit < 10 then u as int == 48 + digit else u as int == 97 + (digit - 10) || u as int == 65 + (digit - 10)
  }

  /** The text writes the number in this base, possibly after leading zeros. */
  predicate IsWriting(t: Text, n: nat, base: nat)
    requires base == 10 || base == 16
  {
    && t != []
    && IsFigure(t[|t| - 1], n % base)
    && if |t| == 1 then n < base else IsWriting(t[..|t| - 1], n / base, base)
  }

  lemma {:induction false} NatRoundTrip(n: nat)
    ensures NatValue(NatText(n)) == n
  {
    if n >= 10 {
      NatRoundTrip(n / 10);
      assert NatText(n)[..|NatText(n)| - 1] == NatText(n / 10);
    }
  }

  lemma {:induction false} NatTextIsInjective(m: nat, n: nat)
    requires NatText(m) == NatText(n)
    ensures m == n
  {
    NatRoundTrip(m);
    NatRoundTrip(n);
  }

  /**
   Two sequences that agree up to their first element outside a class agree on the
   part before it and on the part from it on.
   */
  lemma {:induction false} SameSpan<T>(inside: T -> bool, a: seq<T>, x: seq<T>, b: seq<T>, y: seq<T>)
    requires a + x == b + y
    requires forall i :: 0 <= i < |a| ==> inside(a[i])
    requires forall i :: 0 <= i < |b| ==> inside(b[i])
    requires x == [] || !inside(x[0])
    requires y == [] || !inside(y[0])
    ensures a == b && x == y
  {
    var left, right := a + x, b + y;
    assert forall i :: 0 <= i < |a| ==> left[i] == a[i];
    assert forall i :: 0 <= i < |b| ==> right[i] == b[i];
    assert x != [] ==> left[|a|] == x[0];
    assert y != [] ==> right[|b|] == y[0];
    assert |a| == |b|;
    assert left[..|a|] == a && right[..|b|] == b;
    assert left[|a|..] == x && right[|b|..] == y;
  }

  /** Cancelling a common prefix. */
  lemma {:induction false} CancelPrefix<T>(p: seq<T>, x: seq<T>, y: seq<T>)
    requires p + x == p + y
    ensures x == y
  {
    assert (p + x)[|p|..] == x;
    assert (p + y)[|p|..] == y;
  }

  predicate IsHighSurrogate(u: CodeUnit) {
    0xD800 <= u <= 0xDBFF
  }

  predicate IsLowSurrogate(u: CodeUnit) {
    0xDC00 <= u <= 0xDFFF
  }

  /** Number of units the first code point of `s` takes. */
  function StepLength(s: Text): (k: nat)
    requires s != []
    ensures 1 <= k <= |s|
  {
    if IsHighSurrogate(s[0]) && |s| > 1 && IsLowSurrogate(s[1]) then 2 else 1
  }

  /** The white space that `String.prototype.trim` removes. */
  predicate IsWhitespace(u: CodeUnit) {
    || 9 <= u <= 13 || u == 32 || u == 0xA0 || u == 0x1680 || 0x2000 <= u <= 0x200A
    || u == 0x2028 || u == 0x2029 || u == 0x202F || u == 0x205F || u == 0x3000 || u == 0xFEFF
  }

  /** `t.trim().length > 0`. */
  predicate IsVisible(t: Text) {
    exists i :: 0 <= i < |t| && !IsWhitespace(t[i])
  }

  /** `t.length > 0 && t === t.trim()`. */
  predicate IsTrimmed(t: Text) {
    t != [] && !IsWhitespace(t[0]) && !IsWhitespace(t[|t| - 1])
  }
}
