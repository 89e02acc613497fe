/**
 bounded-xml.ts, lines 49-116: what decoding means, said without the decoder.

 A reference is one of the five names or a number written in decimal or hexadecimal
 digits. A number is written by its remainders, in either case and with any leading
 zeros, and a scalar is read off its code units by the surrogate arithmetic of UTF-16.
 */
module XmlReferences {
  import opened Texts
  import opened XmlText
  import Utf8
  import XmlTag

  // ----- numbers and scalars -----

  /** Char of XML 1.0, section 2.2: tab, line ends, and every scalar value from the space on but the last two of the first plane. */
  predicate IsChar(n: int) {
    n == 9 || n == 10 || n == 13 || (0x20 <= n < 0x11_0000 && !(0xD800 <= n < 0xE000) && n != 0xFFFE && n != 0xFFFF)
  }

  lemma {:induction false} CharsExactly(n: int)
    ensures IsChar(n) <==> IsXmlScalar(n)
  {
  }

  /** The code units are the one scalar value, alone or as a surrogate pair. */
  predicate AreUnitsOf(t: Text, n: int) {
    || (|t| == 1 && t[0] as int == n)
    || (|t| == 2 && IsHighSurrogate(t[0]) && IsLowSurrogate(t[1]) && Utf8.Scalar(t[0], t[1]) == n)
  }

  lemma {:induction false} FigureExactly(u: CodeUnit, base: nat, digit: int)
    requires (base == 10 || base == 16) && 0 <= digit < base
    ensures IsFigure(u, digit) <==> DigitValue(u) == digit
  {
  }

  lemma {:induction false} SplitExactly(n: int, q: int, d: int, base: int)
    requires base == 10 || base == 16 || base == 1024
    requires 0 <= d < base
    ensures n % base == d && n / base == q <==> n == q * base + d
  {
    if base == 10 {
      assert n % 10 == d && n / 10 == q <==> n == q * 10 + d;
    } else if base == 16 {
      assert n % 16 == d && n / 16 == q <==> n == q * 16 + d;
    } else {
      assert n % 1024 == d && n / 1024 == q <==> n == q * 1024 + d;
    }
  }

  lemma {:induction false} ReadsNoNegative(t: Text, base: nat)
    requires (base == 10 || base == 16) && AreDigits(t, base)
    ensures NumberOf(t, base) >= 0
    decreases |t|
  {
    if |t| > 1 {
      ReadsNoNegative(t[..|t| - 1], base);
    }
  }

  /** The digits denote the number exactly when they write it. */
  lemma {:induction false} WritingExactly(t: Text, n: nat, base: nat)
    requires base == 10 || base == 16
    ensures IsWriting(t, n, base) <==> AreDigits(t, base) && NumberOf(t, base) == n
    decreases |t|
  {
    hide DigitValue, IsFigure;
    if t != [] {
      var front, last := t[..|t| - 1], t[|t| - 1];
      FigureExactly(last, base, n % base);
      AreDigitsExactly(t, base);
      if |t| > 1 {
        WritingExactly(front, n / base, base);
        if AreDigits(t, base) {
          SplitExactly(n, NumberOf(front, base), DigitValue(last), base);
        }
      } else {
        assert NumberOf(t, base) == DigitValue(last);
      }
    }
  }

  lemma {:induction false} AreDigitsExactly(t: Text, base: nat)
    requires t != []
    ensures AreDigits(t, base) <==> 0 <= DigitValue(t[|t| - 1]) < base && (|t| == 1 || AreDigits(t[..|t| - 1], base))
  {
    hide DigitValue;
    var front := t[..|t| - 1];
    assert forall i :: 0 <= i < |front| ==> t[i] == front[i];
  }

  lemma {:induction false} UnitsExactly(t: Text, n: int)
    requires IsXmlScalar(n)
    ensures AreUnitsOf(t, n) <==> t == FromScalar(n)
  {
    if n >= 0x1_0000 && AreUnitsOf(t, n) {
      SplitExactly(n - 0x1_0000, t[0] as int - 0xD800, t[1] as int - 0xDC00, 1024);
    }
  }

  // ----- references -----

  predicate IsNamed(name: Text, t: Text) {
    || (name == Ascii("amp") && t == Ascii("&"))
    || (name == Ascii("lt") && t == Ascii("<"))
    || (name == Ascii("gt") && t == Ascii(">"))
    || (name == Ascii("quot") && t == [34])
    || (name == Ascii("apos") && t == Ascii("'"))
  }

  /** What follows the number sign, or the number sign and the letter x, writes a scalar that XML admits. */
  ghost predicate IsNumbered(name: Text, n: nat) {
    && IsChar(n)
    && name != [] && name[0] == '#' as CodeUnit
    && if |name| > 1 && name[1] == 'x' as CodeUnit then IsWriting(name[2..], n, 16) else IsWriting(name[1..], n, 10)
  }

  /** The reference of this name stands for this text. */
  ghost predicate StandsFor(name: Text, t: Text) {
    IsNamed(name, t) || exists n: nat :: IsNumbered(name, n) && AreUnitsOf(t, n)
  }

  lemma {:induction false} Names()
    ensures Ascii("amp") == AMP && Ascii("lt") == LT && Ascii("gt") == GT && Ascii("quot") == QUOT && Ascii("apos") == APOS
    ensures Ascii("&") == [38] && Ascii("<") == [60] && Ascii(">") == [62] && Ascii("'") == [39]
  {
  }

  lemma {:induction false} NumericExactly(digits: Text, base: nat, t: Text)
    requires base == 10 || base == 16
    ensures Numeric(digits, base) == Decoded(t) <==> exists n: nat :: IsChar(n) && IsWriting(digits, n, base) && AreUnitsOf(t, n)
  {
    hide AreDigits, NumberOf, IsWriting, AreUnitsOf, FromScalar, IsXmlScalar, IsChar;
    if Numeric(digits, base) == Decoded(t) {
      ReadsNoNegative(digits, base);
      var n := NumberOf(digits, base);
      CharsExactly(n);
      WritingExactly(digits, n, base);
      UnitsExactly(t, n);
    }
    if n: nat :| IsChar(n) && IsWriting(digits, n, base) && AreUnitsOf(t, n) {
      CharsExactly(n);
      WritingExactly(digits, n, base);
      UnitsExactly(t, n);
    }
  }

  lemma {:induction false} IsNamedExactly(name: Text, t: Text)
    ensures IsNamed(name, t) <==> name in [AMP, LT, GT, QUOT, APOS] && Entity(name) == Decoded(t)
  {
    hide Numeric;
    Names();
    EntityNames();
  }

  lemma {:induction false} NamedIsNotNumbered(name: Text, n: nat)
    requires name in [AMP, LT, GT, QUOT, APOS]
    ensures !IsNumbered(name, n)
  {
    hide IsWriting;
    assert AMP[0] == 97 && LT[0] == 108 && GT[0] == 103 && QUOT[0] == 113 && APOS[0] == 97;
  }

  lemma {:induction false} NumberedExactly(name: Text, t: Text)
    requires name !in [AMP, LT, GT, QUOT, APOS]
    ensures Entity(name) == Decoded(t) <==> exists n: nat :: IsNumbered(name, n) && AreUnitsOf(t, n)
  {
    hide Numeric, IsWriting, AreUnitsOf, IsChar;
    if name != [] && name[0] == HASH {
      assert name[..1] == [HASH];
      assert |name| > 1 ==> name[..2] == [name[0], name[1]];
      if |name| > 1 && name[1] == 120 {
        NumericExactly(name[2..], 16, t);
      } else {
        NumericExactly(name[1..], 10, t);
      }
    }
  }

  /** A reference decodes to a text exactly when it is a name or a number that stands for it. */
  lemma {:induction false} EntityExactly(name: Text, t: Text)
    ensures Entity(name) == Decoded(t) <==> StandsFor(name, t)
  {
    hide Entity, IsNamed, IsNumbered, AreUnitsOf;
    IsNamedExactly(name, t);
    if name in [AMP, LT, GT, QUOT, APOS] {
      forall n: nat ensures !IsNumbered(name, n) {
        NamedIsNotNumbered(name, n);
      }
    } else {
      NumberedExactly(name, t);
    }
  }

  // ----- texts -----

  /** Before the semicolon at k stands the name of a reference that is short enough and stands for this text. */
  ghost predicate IsReference(t: Text, k: nat, stood: Text)
    requires 1 <= k < |t|
  {
    t[k] == SEMICOLON && SEMICOLON !in t[1..k] && k <= 16 && StandsFor(t[1..k], stood)
  }

  /** The text reads as the other: unit by unit, and reference by reference for what it stands for. */
  ghost predicate ReadsAs(t: Text, r: Text)
    decreases |t|
  {
    if t == [] then r == []
    else if t[0] != AMPERSAND then r != [] && r[0] == t[0] && ReadsAs(t[1..], r[1..])
    else exists k: nat, m: nat :: 1 <= k < |t| && m <= |r| && IsReference(t, k, r[..m]) && ReadsAs(t[k + 1..], r[m..])
  }

  lemma {:induction false} ReferenceIsCut(t: Text, k: nat)
    requires 1 <= k < |t| && t[k] == SEMICOLON && SEMICOLON !in t[1..k]
    ensures SemicolonIn(t[1..]) == k - 1
  {
    assert t[1..][..k - 1] == t[1..k];
    SemicolonAt(t[1..], k - 1);
  }

  lemma {:induction false} ExpandReads(t: Text, r: Text)
    requires Expand(t) == Decoded(r)
    ensures ReadsAs(t, r)
    decreases |t|
  {
    hide Entity, StandsFor;
    if t == [] {
    } else if t[0] != AMPERSAND {
      assert r[1..] == Expand(t[1..]).text;
      ExpandReads(t[1..], r[1..]);
    } else {
      var k := SemicolonIn(t[1..]) + 1;
      var m := |Entity(t[1..k]).text|;
      assert SEMICOLON !in t[1..k] by {
        assert forall i :: 0 <= i < k - 1 ==> t[1..k][i] == t[1..][i];
      }
      EntityExactly(t[1..k], r[..m]);
      assert r[m..] == Expand(t[k + 1..]).text;
      ExpandReads(t[k + 1..], r[m..]);
      assert IsReference(t, k, r[..m]);
    }
  }

  lemma {:induction false} ReferenceExpands(t: Text, k: nat, stood: Text)
    requires 1 <= k < |t| && t[0] == AMPERSAND && IsReference(t, k, stood)
    ensures Expand(t) == Prepend(stood, Expand(t[k + 1..]))
  {
    hide Entity, StandsFor, Prepend;
    ReferenceIsCut(t, k);
    EntityExactly(t[1..k], stood);
  }

  lemma {:induction false} ReadsExpand(t: Text, r: Text)
    requires ReadsAs(t, r)
    ensures Expand(t) == Decoded(r)
    decreases |t|
  {
    hide IsReference;
    if t == [] {
    } else if t[0] != AMPERSAND {
      ReadsExpand(t[1..], r[1..]);
      assert [r[0]] + r[1..] == r;
    } else {
      var k: nat, m: nat :| 1 <= k < |t| && m <= |r| && IsReference(t, k, r[..m]) && ReadsAs(t[k + 1..], r[m..]);
      ReferenceExpands(t, k, r[..m]);
      ReadsExpand(t[k + 1..], r[m..]);
      assert r[..m] + r[m..] == r;
    }
  }

  /** The unit is a character that XML admits, or one half of a surrogate pair. */
  predicate IsCharacterAt(t: Text, i: nat)
    requires i < |t|
  {
    || IsChar(t[i] as int)
    || (IsHighSurrogate(t[i]) && i + 1 < |t| && IsLowSurrogate(t[i + 1]))
    || (IsLowSurrogate(t[i]) && i > 0 && IsHighSurrogate(t[i - 1]))
  }

  predicate IsAllCharacters(t: Text) {
    forall i :: 0 <= i < |t| ==> IsCharacterAt(t, i)
  }

  lemma {:induction false} CharactersAfterStep(t: Text)
    requires t != []
    ensures IsAllCharacters(t) <==> (StepLength(t) == 2 || IsXmlScalar(t[0] as int)) && IsAllCharacters(t[StepLength(t)..])
  {
    var k := StepLength(t);
    var rest := t[k..];
    if IsAllCharacters(t) {
      assert IsCharacterAt(t, 0);
      forall i | 0 <= i < |rest| ensures IsCharacterAt(rest, i) {
        assert IsCharacterAt(t, k + i);
      }
    }
    if (k == 2 || IsXmlScalar(t[0] as int)) && IsAllCharacters(rest) {
      forall i | 0 <= i < |t| ensures IsCharacterAt(t, i) {
        if i >= k {
          assert IsCharacterAt(rest, i - k);
        }
      }
    }
  }

  lemma {:induction false} XmlTextExactly(t: Text)
    ensures IsXmlText(t) <==> IsAllCharacters(t)
    decreases |t|
  {
    hide IsCharacterAt;
    if t != [] {
      CharactersAfterStep(t);
      XmlTextExactly(t[StepLength(t)..]);
    }
  }

  /** A text decodes exactly when it holds nothing but XML characters and reads as what is decoded. */
  lemma {:induction false} DecodeExactly(t: Text, r: Text)
    ensures Decode(t) == Decoded(r) <==> IsAllCharacters(t) && ReadsAs(t, r)
  {
    hide Expand, ReadsAs, IsXmlText, IsAllCharacters;
    XmlTextExactly(t);
    if Expand(t) == Decoded(r) {
      ExpandReads(t, r);
    }
    if ReadsAs(t, r) {
      ReadsExpand(t, r);
    }
  }

  /** Every writing of a scalar decodes to it: `&#8217;`, `&#x2019;` and `&#x02019;` are one apostrophe. */
  lemma {:induction false} WritingsDecode(digits: Text, n: nat, r: Text)
    requires IsChar(n) && AreUnitsOf(r, n)
    ensures IsWriting(digits, n, 10) && |digits| + 2 <= MAX_REFERENCE ==> Decode([AMPERSAND, HASH] + digits + [SEMICOLON]) == Decoded(r)
    ensures IsWriting(digits, n, 16) && |digits| + 3 <= MAX_REFERENCE ==> Decode([AMPERSAND, HASH, 120] + digits + [SEMICOLON]) == Decoded(r)
  {
    hide Decode, IsChar, AreUnitsOf, IsWriting;
    if IsWriting(digits, n, 10) && |digits| + 2 <= MAX_REFERENCE {
      WritingIsPlain(digits, n, 10);
      assert ([HASH] + digits)[1..] == digits;
      assert [AMPERSAND] + ([HASH] + digits) + [SEMICOLON] == [AMPERSAND, HASH] + digits + [SEMICOLON];
      NumberIsReference([HASH] + digits, n, r);
    }
    if IsWriting(digits, n, 16) && |digits| + 3 <= MAX_REFERENCE {
      WritingIsPlain(digits, n, 16);
      assert ([HASH, 120] + digits)[2..] == digits;
      assert [AMPERSAND] + ([HASH, 120] + digits) + [SEMICOLON] == [AMPERSAND, HASH, 120] + digits + [SEMICOLON];
      NumberIsReference([HASH, 120] + digits, n, r);
    }
  }

  lemma {:induction false} WritingIsPlain(digits: Text, n: nat, base: nat)
    requires (base == 10 || base == 16) && IsWriting(digits, n, base)
    ensures forall u :: u in digits ==> 48 <= u < 128 && u != SEMICOLON
    ensures base == 10 ==> digits[0] != 120
  {
    WritingExactly(digits, n, base);
  }

  lemma {:induction false} NumberIsReference(name: Text, n: nat, r: Text)
    requires IsNumbered(name, n) && AreUnitsOf(r, n) && |name| < MAX_REFERENCE
    requires forall u :: u in name ==> 32 <= u < 128 && u != SEMICOLON
    ensures Decode([AMPERSAND] + name + [SEMICOLON]) == Decoded(r)
  {
    hide IsNumbered, AreUnitsOf, Decode;
    var t, k := [AMPERSAND] + name + [SEMICOLON], |name| + 1;
    assert t[1..k] == name;
    assert r[..|r|] == r && StandsFor(name, r);
    assert IsReference(t, k, r[..|r|]) && ReadsAs(t[k + 1..], r[|r|..]);
    forall i | 0 <= i < |t| ensures IsCharacterAt(t, i) {
      assert i == 0 || t[i] == SEMICOLON || t[i] in name;
    }
    DecodeExactly(t, r);
  }

  // ----- line endings -----

  /** Line endings from the other end: a line feed after a carriage return adds nothing, a carriage return is a line feed. */
  function Unbroken(t: Text): Text {
    if t == [] then []
    else
      var front, last := t[..|t| - 1], t[|t| - 1];
      if last == 10 && |t| > 1 && t[|t| - 2] == 13 then Unbroken(front)
      else Unbroken(front) + [if last == 13 then 10 else last]
  }

  lemma {:induction false} UnbrokenAlone(a: Text)
    requires a == [13, 10] || |a| == 1
    ensures Unbroken(a) == [if a[0] == 13 then 10 else a[0]]
  {
    assert Unbroken(a[..0]) == [];
    if |a| == 2 {
      UnbrokenAlone(a[..1]);
    }
  }

  lemma {:induction false} UnbrokenStart(a: Text, b: Text)
    requires a == [13, 10] || (|a| == 1 && (a[0] != 13 || b == [] || b[0] != 10))
    ensures Unbroken(a + b) == [if a[0] == 13 then 10 else a[0]] + Unbroken(b)
    decreases |b|
  {
    if b == [] {
      assert a + b == a;
      UnbrokenAlone(a);
    } else {
      var t, front := a + b, b[..|b| - 1];
      assert t[..|t| - 1] == a + front && t[|t| - 1] == b[|b| - 1];
      UnbrokenStart(a, front);
      assert |b| > 1 ==> t[|t| - 2] == b[|b| - 2];
      assert |b| == 1 ==> t[|t| - 2] == a[|a| - 1];
    }
  }

  /** Every line ending becomes one line feed, and nothing else changes. */
  lemma {:induction false} NormaliseExactly(t: Text)
    ensures Normalise(t) == Unbroken(t)
    decreases |t|
  {
    if t != [] {
      var k := if t[0] == 13 && |t| > 1 && t[1] == 10 then 2 else 1;
      assert t == t[..k] + t[k..];
      UnbrokenStart(t[..k], t[k..]);
      NormaliseExactly(t[k..]);
    }
  }

  // ----- attribute values -----

  /** The same text with a space for every tab and line feed. */
  predicate IsSpaced(t: Text, spaced: Text) {
    && |spaced| == |t|
    && forall i :: 0 <= i < |t| ==> spaced[i] == if t[i] == 9 || t[i] == 10 then 32 else t[i]
  }

  lemma {:induction false} SpaceOutExactly(t: Text, spaced: Text)
    ensures IsSpaced(t, spaced) <==> spaced == XmlTag.SpaceOut(t)
  {
    if t != [] && |spaced| == |t| {
      SpaceOutExactly(t[1..], spaced[1..]);
      assert spaced == [spaced[0]] + spaced[1..];
      if IsSpaced(t[1..], spaced[1..]) {
        assert forall i :: 1 <= i < |t| ==> t[i] == t[1..][i - 1] && spaced[i] == spaced[1..][i - 1];
      }
    }
  }

  /** An attribute's value is what its literal reads as, its line endings unified and its white space made spaces before any reference is read. */
  lemma {:induction false} ValueExactly(raw: Text, spaced: Text, value: Text)
    requires IsSpaced(Unbroken(raw), spaced)
    ensures XmlTag.ValueOf(raw) == Decoded(value) <==> IsAllCharacters(spaced) && ReadsAs(spaced, value)
  {
    hide Decode, Normalise, Unbroken, IsSpaced, IsAllCharacters, ReadsAs, XmlTag.SpaceOut;
    NormaliseExactly(raw);
    SpaceOutExactly(Unbroken(raw), spaced);
    DecodeExactly(spaced, value);
  }

  /** Every attribute that was written is reported under its name, with what its literal reads as. */
  lemma {:induction false} AttributesExactly(written: seq<XmlTag.Written>, i: nat)
    requires forall k :: 0 <= k < |written| ==> XmlTag.IsWritten(written[k])
    requires i < |written|
    ensures |XmlTag.AttributesOf(written)| == |written| && XmlTag.AttributesOf(written)[i].name == written[i].name
    ensures exists spaced :: IsSpaced(Unbroken(written[i].raw), spaced) && ReadsAs(spaced, XmlTag.AttributesOf(written)[i].value)
  {
    hide Decode, Normalise, Unbroken, IsSpaced, IsAllCharacters, ReadsAs, XmlTag.SpaceOut, XmlTag.IsName, XmlTag.AreSpaces;
    var raw := written[i].raw;
    var spaced := XmlTag.SpaceOut(Unbroken(raw));
    SpaceOutExactly(Unbroken(raw), spaced);
    ValueExactly(raw, spaced, XmlTag.AttributesOf(written)[i].value);
  }
}
