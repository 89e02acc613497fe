/**
 bounded-xml.ts, lines 49-116: the characters of XML 1.0 (Fifth Edition, sections
 2.2, 2.11, 4.1 and 4.6) and the decoding of character data.

 Decoding never lengthens a text, and decoding an escaped text gives it back.
 */
module XmlText {
  import opened Texts

  const AMPERSAND: CodeUnit := 38
  const SEMICOLON: CodeUnit := 59
  const HASH: CodeUnit := 35
  const MAX_REFERENCE: nat := 16
  const MAX_DECODED: nat := 16 * 1024 * 1024

  const AMP: Text := [97, 109, 112]
  const LT: Text := [108, 116]
  const GT: Text := [103, 116]
  const QUOT: Text := [113, 117, 111, 116]
  const APOS: Text := [97, 112, 111, 115]

  datatype Refusal = Invalid | ResourceLimit | Unsafe

  datatype Decoded = Refused(why: Refusal) | Decoded(text: Text)

  predicate IsXmlScalar(n: int) {
    || n == 0x9 || n == 0xA || n == 0xD
    || 0x20 <= n <= 0xD7FF || 0xE000 <= n <= 0xFFFD || 0x1_0000 <= n <= 0x10_FFFF
  }

  /** assertXmlCharacters: a surrogate pair is always a valid scalar, a lone surrogate never is. */
  predicate IsXmlText(t: Text) {
    t == [] || ((StepLength(t) == 2 || IsXmlScalar(t[0] as int)) && IsXmlText(t[StepLength(t)..]))
  }

  function DigitValue(u: CodeUnit): int {
    if IsDigit(u) then u as int - 48
    else if 97 <= u <= 102 then u as int - 87
    else if 65 <= u <= 70 then u as int - 55
    else -1
  }

  predicate AreDigits(t: Text, base: int) {
    t != [] && forall i :: 0 <= i < |t| ==> 0 <= DigitValue(t[i]) < base
  }

  function NumberOf(t: Text, base: int): int
    requires base >= 0
  {
    if t == [] then 0 else NumberOf(t[..|t| - 1], base) * base + DigitValue(t[|t| - 1])
  }

  /** `String.fromCodePoint`. */
  function FromScalar(n: int): (t: Text)
    requires IsXmlScalar(n)
    ensures 1 <= |t| <= 2
  {
    if n < 0x1_0000 then [n as CodeUnit]
    else [(0xD800 + (n - 0x1_0000) / 1024) as CodeUnit, (0xDC00 + (n - 0x1_0000) % 1024) as CodeUnit]
  }

  function Numeric(digits: Text, base: int): Decoded
    requires base >= 0
  {
    if AreDigits(digits, base) && IsXmlScalar(NumberOf(digits, base)) then Decoded(FromScalar(NumberOf(digits, base)))
    else Refused(Invalid)
  }

  /** What one reference stands for. */
  function Entity(name: Text): (r: Decoded)
    ensures r.Decoded? ==> |r.text| <= |name|
  {
    if name == AMP then Decoded([38])
    else if name == LT then Decoded([60])
    else if name == GT then Decoded([62])
    else if name == QUOT then Decoded([34])
    else if name == APOS then Decoded([39])
    else if StartsWith(name, [HASH, 120]) then Numeric(name[2..], 16)
    else if StartsWith(name, [HASH]) then Numeric(name[1..], 10)
    else Refused(Invalid)
  }

  /** Offset of the first semicolon, or the length of the text. */
  function SemicolonIn(t: Text): (k: nat)
    ensures k <= |t| && (k < |t| ==> t[k] == SEMICOLON)
    ensures forall i :: 0 <= i < k ==> t[i] != SEMICOLON
  {
    if t == [] || t[0] == SEMICOLON then 0
    else
      var k := SemicolonIn(t[1..]);
      assert forall i :: 1 <= i < k + 1 ==> t[i] == t[1..][i - 1];
      1 + k
  }

  function Prepend(head: Text, rest: Decoded): Decoded {
    match rest case Refused(_) => rest case Decoded(text) => Decoded(head + text)
  }

  /** Replaces references from the left; everything else stands for itself. */
  function Expand(t: Text): Decoded
    decreases |t|
  {
    if t == [] then Decoded([])
    else if t[0] != AMPERSAND then Prepend([t[0]], Expand(t[1..]))
    else
      var k := SemicolonIn(t[1..]);
      if 1 + k >= |t| || 1 + k > MAX_REFERENCE || Entity(t[1..1 + k]).Refused? then Refused(Invalid)
      else Prepend(Entity(t[1..1 + k]).text, Expand(t[k + 2..]))
  }

  /** decodeBoundedXmlText */
  function Decode(t: Text): (r: Decoded) {
    if IsXmlText(t) then Expand(t) else Refused(Invalid)
  }

  lemma {:induction false} ExpandIsNoLonger(t: Text)
    ensures Expand(t).Decoded? ==> |Expand(t).text| <= |t|
    decreases |t|
  {
    if t == [] {
    } else if t[0] != AMPERSAND {
      ExpandIsNoLonger(t[1..]);
    } else {
      var k := SemicolonIn(t[1..]);
      if 1 + k < |t| {
        ExpandIsNoLonger(t[k + 2..]);
      }
    }
  }

  lemma {:induction false} ExpandUnreferenced(u: CodeUnit, rest: Text)
    requires u != AMPERSAND
    ensures Expand([u] + rest) == Prepend([u], Expand(rest))
  {
    assert ([u] + rest)[1..] == rest;
  }

  lemma {:induction false} ExpandPlain(plain: Text, rest: Text)
    requires AMPERSAND !in plain
    ensures Expand(plain + rest) == Prepend(plain, Expand(rest))
    decreases |plain|
  {
    if plain == [] {
      assert plain + rest == rest;
    } else {
      var u, tail := plain[0], plain[1..];
      assert u in plain && forall v :: v in tail ==> v in plain;
      ExpandPlain(tail, rest);
      assert plain + rest == [u] + (tail + rest) && plain == [u] + tail;
      ExpandUnreferenced(u, tail + rest);
      PrependTwice([u], tail, Expand(rest));
    }
  }

  /** `indexOf` for one code unit. */
  method IndexOf(t: Text, u: CodeUnit, from: nat) returns (at: nat)
    requires from <= |t|
    ensures from <= at <= |t| && u !in t[from..at] && (at < |t| ==> t[at] == u)
  {
    at := from;
    while at < |t| && t[at] != u
      invariant from <= at <= |t| && u !in t[from..at]
    {
      assert t[from..at + 1] == t[from..at] + [t[at]];
      at := at + 1;
    }
  }

  lemma {:induction false} SemicolonAt(t: Text, k: nat)
    requires k <= |t| && SEMICOLON !in t[..k] && (k < |t| ==> t[k] == SEMICOLON)
    ensures SemicolonIn(t) == k
  {
    forall i | 0 <= i < k ensures t[i] != SEMICOLON {
      assert t[..k][i] == t[i];
    }
  }

  /** One reference: where decoding goes on, or zero when it is refused. */
  method DecodeReference(value: Text, ampersand: nat, decoded: Text) returns (next: nat, longer: Text)
    requires ampersand < |value| <= MAX_DECODED && value[ampersand] == AMPERSAND && |decoded| <= ampersand
    ensures next == 0 ==> Expand(value[ampersand..]) == Refused(Invalid)
    ensures next > 0 ==> ampersand < next <= |value| && |longer| <= next
    ensures next > 0 ==> Prepend(decoded, Expand(value[ampersand..])) == Prepend(longer, Expand(value[next..]))
  {
    hide Expand, Prepend, StartsWith;
    next, longer := 0, [];
    var semicolon := IndexOf(value, SEMICOLON, ampersand + 1);
    ReferenceStep(value, ampersand, semicolon, decoded);
    if semicolon == |value| || semicolon - ampersand > MAX_REFERENCE {
      return;
    }
    var entity := Entity(value[ampersand + 1..semicolon]);
    if entity.Refused? {
      return;
    }
    longer := decoded + entity.text;
    if |longer| > MAX_DECODED {
      assert false;
    }
    next := semicolon + 1;
  }

  /** The loop of decodeBoundedXmlText; its own size check can never fire. */
  method DecodeText(value: Text) returns (r: Decoded)
    requires |value| <= MAX_DECODED
    ensures r == Decode(value)
  {
    if !IsXmlText(value) {
      return Refused(Invalid);
    }
    var cursor, decoded := 0, [];
    assert value[0..] == value;
    while cursor < |value|
      invariant cursor <= |value| && |decoded| <= cursor
      invariant Expand(value) == Prepend(decoded, Expand(value[cursor..]))
    {
      var ampersand := IndexOf(value, AMPERSAND, cursor);
      PlainStep(value, cursor, ampersand, decoded);
      decoded := decoded + value[cursor..ampersand];
      if ampersand == |value| {
        return Decoded(decoded);
      }
      var next, longer := DecodeReference(value, ampersand, decoded);
      if next == 0 {
        return Refused(Invalid);
      }
      cursor, decoded := next, longer;
    }
    assert value[cursor..] == [];
    r := Decoded(decoded);
  }

  lemma {:induction false} PlainStep(value: Text, cursor: nat, ampersand: nat, decoded: Text)
    requires cursor <= ampersand <= |value| && AMPERSAND !in value[cursor..ampersand]
    ensures Prepend(decoded, Expand(value[cursor..])) == Prepend(decoded + value[cursor..ampersand], Expand(value[ampersand..]))
    ensures ampersand == |value| ==> Expand(value[ampersand..]) == Decoded([])
  {
    assert value[cursor..] == value[cursor..ampersand] + value[ampersand..];
    ExpandPlain(value[cursor..ampersand], value[ampersand..]);
    PrependTwice(decoded, value[cursor..ampersand], Expand(value[ampersand..]));
  }

  lemma {:induction false} ReferenceStep(value: Text, ampersand: nat, semicolon: nat, decoded: Text)
    requires ampersand < semicolon <= |value| && value[ampersand] == AMPERSAND
    requires SEMICOLON !in value[ampersand + 1..semicolon] && (semicolon < |value| ==> value[semicolon] == SEMICOLON)
    ensures semicolon == |value| || semicolon - ampersand > MAX_REFERENCE || Entity(value[ampersand + 1..semicolon]).Refused?
      ==> Expand(value[ampersand..]) == Refused(Invalid)
    ensures semicolon < |value| && semicolon - ampersand <= MAX_REFERENCE && Entity(value[ampersand + 1..semicolon]).Decoded?
      ==> Prepend(decoded, Expand(value[ampersand..])) == Prepend(decoded + Entity(value[ampersand + 1..semicolon]).text, Expand(value[semicolon + 1..]))
  {
    var tail, k := value[ampersand..], semicolon - ampersand - 1;
    assert tail[1..][..k] == value[ampersand + 1..semicolon];
    SemicolonAt(tail[1..], k);
    assert tail[1..1 + k] == value[ampersand + 1..semicolon];
    if semicolon < |value| {
      assert tail[k + 2..] == value[semicolon + 1..];
      if Entity(tail[1..1 + k]).Decoded? {
        PrependTwice(decoded, Entity(tail[1..1 + k]).text, Expand(value[semicolon + 1..]));
      }
    }
  }

  lemma {:induction false} PrependTwice(a: Text, b: Text, rest: Decoded)
    ensures Prepend(a, Prepend(b, rest)) == Prepend(a + b, rest)
  {
    if rest.Decoded? {
      assert a + (b + rest.text) == a + b + rest.text;
    }
  }

  // ----- line endings -----

  /** normaliseLineEndings */
  function Normalise(t: Text): (r: Text)
    ensures |r| <= |t|
  {
    if t == [] then []
    else if t[0] == 13 then [10] + Normalise(if |t| > 1 && t[1] == 10 then t[2..] else t[1..])
    else [t[0]] + Normalise(t[1..])
  }

  // ----- escaping -----

  function EscapeUnit(u: CodeUnit): (t: Text)
    ensures |t| >= 1
  {
    if u == 38 then [AMPERSAND] + AMP + [SEMICOLON]
    else if u == 60 then [AMPERSAND] + LT + [SEMICOLON]
    else if u == 62 then [AMPERSAND] + GT + [SEMICOLON]
    else if u == 34 then [AMPERSAND] + QUOT + [SEMICOLON]
    else if u == 39 then [AMPERSAND] + APOS + [SEMICOLON]
    else [u]
  }

  /** A text with the five predefined characters replaced by their references. */
  function Escape(t: Text): Text {
    if t == [] then [] else EscapeUnit(t[0]) + Escape(t[1..])
  }

  lemma {:induction false} ExpandReference(name: Text, u: CodeUnit, rest: Text)
    requires Entity(name) == Decoded([u]) && SEMICOLON !in name && |name| < MAX_REFERENCE
    ensures Expand([AMPERSAND] + name + [SEMICOLON] + rest) == Prepend([u], Expand(rest))
  {
    var t := [AMPERSAND] + name + [SEMICOLON] + rest;
    assert t[1..][..|name|] == name && t[1..][|name|] == SEMICOLON;
    SemicolonAt(t[1..], |name|);
    assert t[1..1 + |name|] == name;
    assert t[|name| + 2..] == rest;
  }

  lemma {:induction false} EntityNames()
    ensures Entity(AMP) == Decoded([38]) && Entity(LT) == Decoded([60]) && Entity(GT) == Decoded([62])
    ensures Entity(QUOT) == Decoded([34]) && Entity(APOS) == Decoded([39])
  {
    assert |AMP| == 3 && |LT| == 2 && |GT| == 2 && |QUOT| == 4 && |APOS| == 4;
    assert LT[0] == 108 && GT[0] == 103 && QUOT[0] == 113 && APOS[0] == 97;
  }

  lemma {:induction false} ExpandUnit(u: CodeUnit, rest: Text)
    ensures Expand(EscapeUnit(u) + rest) == Prepend([u], Expand(rest))
  {
    EntityNames();
    if u == 38 {
      ExpandReference(AMP, u, rest);
    } else if u == 60 {
      ExpandReference(LT, u, rest);
    } else if u == 62 {
      ExpandReference(GT, u, rest);
    } else if u == 34 {
      ExpandReference(QUOT, u, rest);
    } else if u == 39 {
      ExpandReference(APOS, u, rest);
    } else {
      ExpandPlain([u], rest);
    }
  }

  lemma {:induction false} ExpandEscaped(t: Text)
    ensures Expand(Escape(t)) == Decoded(t)
    decreases |t|
  {
    if t != [] {
      ExpandEscaped(t[1..]);
      ExpandUnit(t[0], Escape(t[1..]));
      assert [t[0]] + t[1..] == t;
    }
  }

  lemma {:induction false} PlainXml(a: Text, b: Text)
    requires forall i :: 0 <= i < |a| ==> 0x20 <= a[i] < 0x80
    requires IsXmlText(b)
    ensures IsXmlText(a + b)
    decreases |a|
  {
    if a == [] {
      assert a + b == b;
    } else {
      PlainXml(a[1..], b);
      assert (a + b)[1..] == a[1..] + b;
    }
  }

  lemma {:induction false} EscapedPair(t: Text)
    requires t != [] && StepLength(t) == 2 && IsXmlText(Escape(t[2..]))
    ensures IsXmlText(Escape(t))
  {
    assert t[1..][1..] == t[2..];
    assert Escape(t[1..]) == [t[1]] + Escape(t[2..]);
    assert Escape(t) == [t[0]] + Escape(t[1..]);
    assert Escape(t)[2..] == Escape(t[2..]);
  }

  lemma {:induction false} EscapedUnit(t: Text)
    requires t != [] && StepLength(t) == 1 && IsXmlScalar(t[0] as int) && IsXmlText(Escape(t[1..]))
    ensures IsXmlText(Escape(t))
  {
    if EscapeUnit(t[0]) == [t[0]] {
      EscapedStart(t);
      assert Escape(t)[1..] == Escape(t[1..]);
    } else {
      PlainXml(EscapeUnit(t[0]), Escape(t[1..]));
    }
  }

  lemma {:induction false} EscapedIsXml(t: Text)
    requires IsXmlText(t)
    ensures IsXmlText(Escape(t))
    decreases |t|
  {
    if t != [] {
      EscapedIsXml(t[StepLength(t)..]);
      if StepLength(t) == 2 {
        EscapedPair(t);
      } else {
        EscapedUnit(t);
      }
    }
  }

  lemma {:induction false} EscapedStart(t: Text)
    requires t != [] && StepLength(t) == 1 && IsXmlScalar(t[0] as int) && EscapeUnit(t[0]) == [t[0]]
    ensures StepLength(Escape(t)) == 1 && Escape(t)[0] == t[0]
  {
  }

  /** Decoding an escaped text gives the text back. */
  lemma {:induction false} DecodeEscaped(t: Text)
    requires IsXmlText(t)
    ensures Decode(Escape(t)) == Decoded(t)
  {
    EscapedIsXml(t);
    ExpandEscaped(t);
  }
}
