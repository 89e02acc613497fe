/**
 Finite JavaScript numbers and how `String(n)` prints them.

 A finite double other than zero is represented by its sign, its shortest
 round-trip decimal digits d1..dk and the position of the point: the value is
 0.d1..dk times ten to the power `point`. `PrintNumber` follows the five printing
 forms of Number::toString (ECMA-262, section 6.1.6.1.20), where `point` is that
 section's n. Negative zero prints as "0" and is the same JSON number as zero.
 */
module JsNumbers {
  import opened Texts

  datatype RawNumber = Zero | Decimal(negative: bool, digits: Text, point: int)

  predicate IsShortest(n: RawNumber) {
    n.Zero? || (
      && |n.digits| > 0
      && AllDigits(n.digits)
      && n.digits[0] != 48
      && n.digits[|n.digits| - 1] != 48)
  }

  type Number = n: RawNumber | IsShortest(n) witness Zero

  /** `Number.isInteger`. */
  predicate IsInteger(n: Number) {
    n.Zero? || |n.digits| <= n.point
  }

  function Zeros(k: nat): (t: Text)
    ensures |t| == k && forall i :: 0 <= i < k ==> t[i] == 48
  {
    if k == 0 then [] else [48] + Zeros(k - 1)
  }

  const POINT: CodeUnit := 46
  const EXPONENT: CodeUnit := 101
  const PLUS: CodeUnit := 43
  const MINUS: CodeUnit := 45

  function SignedText(e: int): Text {
    if e < 0 then [MINUS] + NatText(-e) else [PLUS] + NatText(e)
  }

  /** The text of a positive number 0.digits * 10^point. */
  function PrintMagnitude(digits: Text, point: int): Text
    requires |digits| > 0
  {
    var k := |digits|;
    if k <= point <= 21 then
      digits + Zeros(point - k)
    else if 0 < point <= 21 then
      digits[..point] + [POINT] + digits[point..]
    else if -6 < point <= 0 then
      [48] + [POINT] + (Zeros(-point) + digits)
    else if k == 1 then
      digits + [EXPONENT] + SignedText(point - 1)
    else
      (digits[..1] + [POINT] + digits[1..]) + [EXPONENT] + SignedText(point - 1)
  }

  function PrintNumber(n: Number): Text {
    match n
    case Zero => [48]
    case Decimal(negative, digits, point) =>
      if negative then [MINUS] + PrintMagnitude(digits, point) else PrintMagnitude(digits, point)
  }

  // ----- reading the printed text back -----

  function IndexOf(t: Text, u: CodeUnit): (i: nat)
    ensures i <= |t|
    ensures forall j :: 0 <= j < i ==> t[j] != u
    ensures i < |t| ==> t[i] == u
  {
    if |t| == 0 || t[0] == u then 0 else 1 + IndexOf(t[1..], u)
  }

  lemma {:induction false} IndexOfSplit(a: Text, u: CodeUnit, b: Text)
    requires forall i :: 0 <= i < |a| ==> a[i] != u
    ensures IndexOf(a + [u] + b, u) == |a|
  {
    var t := a + [u] + b;
    assert t[|a|] == u;
    assert forall i :: 0 <= i < |a| ==> t[i] == a[i];
  }

  lemma {:induction false} IndexOfAbsent(a: Text, u: CodeUnit)
    requires forall i :: 0 <= i < |a| ==> a[i] != u
    ensures IndexOf(a, u) == |a|
  {
  }

  function DropLeading(t: Text): (r: Text)
    ensures |r| <= |t|
  {
    if |t| > 0 && t[0] == 48 then DropLeading(t[1..]) else t
  }

  function DropTrailing(t: Text): Text {
    if |t| > 0 && t[|t| - 1] == 48 then DropTrailing(t[..|t| - 1]) else t
  }

  lemma {:induction false} DropLeadingZeros(k: nat, t: Text)
    requires |t| > 0 && t[0] != 48
    ensures DropLeading(Zeros(k) + t) == t
  {
    if k == 0 {
      assert Zeros(0) + t == t;
    } else {
      assert (Zeros(k) + t)[1..] == Zeros(k - 1) + t;
      DropLeadingZeros(k - 1, t);
    }
  }

  lemma {:induction false} DropTrailingZeros(k: nat, t: Text)
    requires |t| > 0 && t[|t| - 1] != 48
    ensures DropTrailing(t + Zeros(k)) == t
  {
    if k == 0 {
      assert t + Zeros(0) == t;
    } else {
      assert (t + Zeros(k))[..|t| + k - 1] == t + Zeros(k - 1);
      DropTrailingZeros(k - 1, t);
    }
  }

  function SignedValue(t: Text): int {
    if |t| > 0 && t[0] == MINUS && AllDigits(t[1..]) then -(NatValue(t[1..]) as int)
    else if |t| > 0 && AllDigits(t[1..]) then NatValue(t[1..])
    else 0
  }

  lemma {:induction false} SignedRoundTrip(e: int)
    ensures SignedValue(SignedText(e)) == e
  {
    var magnitude := if e < 0 then -e else e;
    NatRoundTrip(magnitude);
    assert SignedText(e)[1..] == NatText(magnitude);
  }

  /** The significant digits and the position of the point that a mantissa text denotes. */
  function ReadMantissa(t: Text): (Text, int) {
    var p := IndexOf(t, POINT);
    var digits := if p < |t| then t[..p] + t[p + 1..] else t;
    var significant := DropLeading(digits);
    (DropTrailing(significant), p - (|digits| - |significant|))
  }

  function ReadMagnitude(t: Text): (Text, int) {
    var e := IndexOf(t, EXPONENT);
    var mantissa := ReadMantissa(t[..e]);
    (mantissa.0, mantissa.1 + if e < |t| then SignedValue(t[e + 1..]) else 0)
  }

  lemma {:induction false} ReadPlain(t: Text)
    requires forall i :: 0 <= i < |t| ==> t[i] != EXPONENT
    ensures ReadMagnitude(t) == ReadMantissa(t)
  {
    IndexOfAbsent(t, EXPONENT);
    assert t[..|t|] == t;
  }

  lemma {:induction false} ReadScaled(t: Text, e: int)
    requires forall i :: 0 <= i < |t| ==> t[i] != EXPONENT
    ensures ReadMagnitude(t + [EXPONENT] + SignedText(e)) == (ReadMantissa(t).0, ReadMantissa(t).1 + e)
  {
    var whole := t + [EXPONENT] + SignedText(e);
    IndexOfSplit(t, EXPONENT, SignedText(e));
    assert whole[..|t|] == t;
    assert whole[|t| + 1..] == SignedText(e);
    SignedRoundTrip(e);
  }

  lemma {:induction false} ReadPointed(whole: Text, fraction: Text)
    requires AllDigits(whole)
    ensures ReadMantissa(whole + [POINT] + fraction) ==
            (DropTrailing(DropLeading(whole + fraction)), |whole| - (|whole + fraction| - |DropLeading(whole + fraction)|))
  {
    var t := whole + [POINT] + fraction;
    IndexOfSplit(whole, POINT, fraction);
    assert t[..|whole|] == whole && t[|whole| + 1..] == fraction;
  }

  lemma {:induction false} ReadUnpointed(digits: Text)
    requires AllDigits(digits)
    ensures ReadMantissa(digits) == (DropTrailing(DropLeading(digits)), |DropLeading(digits)|)
  {
    IndexOfAbsent(digits, POINT);
  }

  lemma {:induction false} KeepsShortest(digits: Text)
    requires |digits| > 0 && digits[0] != 48 && digits[|digits| - 1] != 48
    ensures DropLeading(digits) == digits == DropTrailing(digits)
  {
  }

  lemma {:induction false} ReadIntegral(digits: Text, zeros: nat)
    requires IsShortest(Decimal(false, digits, 0))
    ensures ReadMagnitude(digits + Zeros(zeros)) == (digits, |digits| + zeros)
  {
    ReadPlain(digits + Zeros(zeros));
    ReadUnpointed(digits + Zeros(zeros));
    DropTrailingZeros(zeros, digits);
  }

  lemma {:induction false} ReadSplit(digits: Text, point: nat)
    requires IsShortest(Decimal(false, digits, point)) && 0 < point <= |digits|
    ensures ReadMantissa(digits[..point] + [POINT] + digits[point..]) == (digits, point)
  {
    hide ReadMantissa, DropLeading, DropTrailing;
    assert digits[..point] + digits[point..] == digits;
    ReadPointed(digits[..point], digits[point..]);
    KeepsShortest(digits);
  }

  lemma {:induction false} ZeroFirst(n: nat)
    ensures [48] + Zeros(n) == Zeros(1 + n)
  {
  }

  lemma {:induction false} ReadSmall(digits: Text, point: int)
    requires IsShortest(Decimal(false, digits, 0)) && point <= 0
    ensures ReadMantissa([48] + [POINT] + (Zeros(-point) + digits)) == (digits, point)
  {
    hide Zeros, ReadMantissa, DropLeading, DropTrailing;
    var zeros := -point;
    ReadPointed([48], Zeros(zeros) + digits);
    ZeroFirst(zeros);
    assert [48] + (Zeros(zeros) + digits) == ([48] + Zeros(zeros)) + digits;
    DropLeadingZeros(1 + zeros, digits);
    KeepsShortest(digits);
  }

  lemma {:induction false} SingleDigit(digits: Text)
    requires IsShortest(Decimal(false, digits, 1)) && |digits| == 1
    ensures ReadMantissa(digits) == (digits, 1)
  {
    ReadUnpointed(digits);
    KeepsShortest(digits);
  }

  lemma {:induction false} SplitRoundTrip(digits: Text, point: int)
    requires IsShortest(Decimal(false, digits, point)) && 0 < point < |digits|
    ensures ReadMagnitude(digits[..point] + [POINT] + digits[point..]) == (digits, point)
  {
    ReadSplit(digits, point);
    ReadPlain(digits[..point] + [POINT] + digits[point..]);
  }

  lemma {:induction false} SmallRoundTrip(digits: Text, point: int)
    requires IsShortest(Decimal(false, digits, point)) && point <= 0
    ensures ReadMagnitude([48] + [POINT] + (Zeros(-point) + digits)) == (digits, point)
  {
    ReadSmall(digits, point);
    ReadPlain([48] + [POINT] + (Zeros(-point) + digits));
  }

  lemma {:induction false} ScaledRoundTrip(digits: Text, point: int)
    requires IsShortest(Decimal(false, digits, point)) && |digits| > 1
    ensures ReadMagnitude((digits[..1] + [POINT] + digits[1..]) + [EXPONENT] + SignedText(point - 1)) == (digits, point)
  {
    hide ReadMantissa, ReadMagnitude, SignedText;
    ReadSplit(digits, 1);
    ReadScaled(digits[..1] + [POINT] + digits[1..], point - 1);
  }

  lemma {:induction false} IntegralForm(digits: Text, point: int)
    requires IsShortest(Decimal(false, digits, point)) && |digits| <= point <= 21
    ensures ReadMagnitude(PrintMagnitude(digits, point)) == (digits, point)
  {
    hide ReadMagnitude, Zeros, SignedText;
    ReadIntegral(digits, point - |digits|);
  }

  lemma {:induction false} SplitForm(digits: Text, point: int)
    requires IsShortest(Decimal(false, digits, point)) && 0 < point <= 21 && point < |digits|
    ensures ReadMagnitude(PrintMagnitude(digits, point)) == (digits, point)
  {
    SplitRoundTrip(digits, point);
  }

  lemma {:induction false} SmallForm(digits: Text, point: int)
    requires IsShortest(Decimal(false, digits, point)) && -6 < point <= 0
    ensures ReadMagnitude(PrintMagnitude(digits, point)) == (digits, point)
  {
    SmallRoundTrip(digits, point);
  }

  lemma {:induction false} ScaledForm(digits: Text, point: int)
    requires IsShortest(Decimal(false, digits, point)) && (point <= -6 || point > 21)
    ensures ReadMagnitude(PrintMagnitude(digits, point)) == (digits, point)
  {
    if |digits| == 1 {
      SingleDigit(digits);
      ReadScaled(digits, point - 1);
    } else {
      ScaledRoundTrip(digits, point);
    }
  }

  /** Reading a printed magnitude returns its digits and its point. */
  lemma {:induction false} MagnitudeRoundTrip(digits: Text, point: int)
    requires IsShortest(Decimal(false, digits, point))
    ensures ReadMagnitude(PrintMagnitude(digits, point)) == (digits, point)
  {
    if point <= -6 || point > 21 {
      ScaledForm(digits, point);
    } else if point <= 0 {
      SmallForm(digits, point);
    } else if |digits| <= point {
      IntegralForm(digits, point);
    } else {
      SplitForm(digits, point);
    }
  }

  lemma {:induction false} MagnitudeStart(digits: Text, point: int)
    requires IsShortest(Decimal(false, digits, point))
    ensures var t := PrintMagnitude(digits, point); |t| > 0 && IsDigit(t[0]) && t != [48]
  {
  }

  /** Distinct numbers have distinct texts. */
  lemma {:induction false} PrintNumberIsInjective(a: Number, b: Number)
    requires PrintNumber(a) == PrintNumber(b)
    ensures a == b
  {
    if a.Decimal? {
      MagnitudeStart(a.digits, a.point);
      MagnitudeRoundTrip(a.digits, a.point);
    }
    if b.Decimal? {
      MagnitudeStart(b.digits, b.point);
      MagnitudeRoundTrip(b.digits, b.point);
    }
    if a.Decimal? && b.Decimal? && a.negative && b.negative {
      CancelPrefix([MINUS], PrintMagnitude(a.digits, a.point), PrintMagnitude(b.digits, b.point));
    }
  }

  /** The code units a number's text is made of. */
  predicate IsNumberUnit(u: CodeUnit) {
    IsDigit(u) || u == POINT || u == EXPONENT || u == PLUS || u == MINUS
  }

  predicate AllUnits(t: Text) {
    forall i :: 0 <= i < |t| ==> IsNumberUnit(t[i])
  }

  lemma {:induction false} DigitUnits(t: Text)
    requires AllDigits(t)
    ensures AllUnits(t)
  {
    assert forall i :: 0 <= i < |t| ==> IsDigit(t[i]) && IsNumberUnit(t[i]);
  }

  lemma {:induction false} JoinedUnits(a: Text, b: Text)
    requires AllUnits(a) && AllUnits(b)
    ensures AllUnits(a + b)
  {
    assert forall i :: 0 <= i < |a + b| ==> (a + b)[i] == if i < |a| then a[i] else b[i - |a|];
  }

  lemma {:induction false} PointedUnits(a: Text, u: CodeUnit, b: Text)
    requires AllUnits(a) && AllUnits(b) && IsNumberUnit(u)
    ensures AllUnits(a + [u] + b)
  {
    JoinedUnits(a, [u]);
    JoinedUnits(a + [u], b);
  }

  lemma {:induction false} SignedUnits(e: int)
    ensures AllUnits(SignedText(e))
  {
    var magnitude := NatText(if e < 0 then -e else e);
    DigitUnits(magnitude);
    JoinedUnits([MINUS], magnitude);
    JoinedUnits([PLUS], magnitude);
  }

  lemma {:induction false} PlainUnits(digits: Text, point: int)
    requires IsShortest(Decimal(false, digits, point)) && -6 < point <= 21
    ensures AllUnits(PrintMagnitude(digits, point))
  {
    DigitUnits(digits);
    if |digits| <= point {
      DigitUnits(Zeros(point - |digits|));
      JoinedUnits(digits, Zeros(point - |digits|));
    } else if 0 < point {
      PointedUnits(digits[..point], POINT, digits[point..]);
    } else {
      DigitUnits(Zeros(-point));
      JoinedUnits(Zeros(-point), digits);
      PointedUnits([48], POINT, Zeros(-point) + digits);
    }
  }

  lemma {:induction false} ScaledUnits(digits: Text, point: int)
    requires IsShortest(Decimal(false, digits, point)) && (point <= -6 || point > 21)
    ensures AllUnits(PrintMagnitude(digits, point))
  {
    DigitUnits(digits);
    SignedUnits(point - 1);
    if |digits| == 1 {
      PointedUnits(digits, EXPONENT, SignedText(point - 1));
    } else {
      PointedUnits(digits[..1], POINT, digits[1..]);
      PointedUnits(digits[..1] + [POINT] + digits[1..], EXPONENT, SignedText(point - 1));
    }
  }

  lemma {:induction false} NumberUnits(n: Number)
    ensures |PrintNumber(n)| > 0
    ensures IsDigit(PrintNumber(n)[0]) || PrintNumber(n)[0] == MINUS
    ensures AllUnits(PrintNumber(n))
  {
    if n.Decimal? {
      MagnitudeStart(n.digits, n.point);
      if n.point <= -6 || n.point > 21 {
        ScaledUnits(n.digits, n.point);
      } else {
        PlainUnits(n.digits, n.point);
      }
      JoinedUnits([MINUS], PrintMagnitude(n.digits, n.point));
    }
  }
}
