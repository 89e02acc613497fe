/**
 JSON values and the text `JSON.stringify` gives them (ECMA-262, section 25.5.2;
 the texts are those of RFC 8259, sections 4 to 7).

 An object is the sequence of its own properties in enumeration order, so
 `Stringify` distinguishes two orders of the same properties. The main result is
 that `Stringify` is unambiguous: equal texts come from identical values.
 */
module JsonText {
  import opened Texts
  import opened JsNumbers

  datatype Json =
    | Null
    | Bool(flag: bool)
    | Num(number: Number)
    | Str(text: Text)
    | Arr(items: seq<Json>)
    | Obj(fields: seq<Field>)

  datatype Field = Field(key: Text, value: Json)

  const QUOTE: CodeUnit := 34
  const COMMA: CodeUnit := 44
  const COLON: CodeUnit := 58
  const BACKSLASH: CodeUnit := 92
  const SMALL_U: CodeUnit := 117
  const OPEN_BRACKET: CodeUnit := 91
  const CLOSE_BRACKET: CodeUnit := 93
  const OPEN_BRACE: CodeUnit := 123
  const CLOSE_BRACE: CodeUnit := 125

  function HexDigit(d: int): CodeUnit
    requires 0 <= d < 16
  {
    if d < 10 then (48 + d) as CodeUnit else (87 + d) as CodeUnit
  }

  function UnicodeEscape(u: CodeUnit): Text {
    var n := u as int;
    [BACKSLASH, SMALL_U, HexDigit(n / 4096), HexDigit(n / 256 % 16), HexDigit(n / 16 % 16), HexDigit(n % 16)]
  }

  /** A unit that stands alone: short escapes, \u escapes for other controls and lone surrogates. */
  function EscapeUnit(u: CodeUnit): Text {
    if u == 8 then [BACKSLASH, 98]
    else if u == 9 then [BACKSLASH, 116]
    else if u == 10 then [BACKSLASH, 110]
    else if u == 12 then [BACKSLASH, 102]
    else if u == 13 then [BACKSLASH, 114]
    else if u == QUOTE then [BACKSLASH, QUOTE]
    else if u == BACKSLASH then [BACKSLASH, BACKSLASH]
    else if u < 32 || IsHighSurrogate(u) || IsLowSurrogate(u) then UnicodeEscape(u)
    else [u]
  }

  function StepText(s: Text): Text
    requires s != []
  {
    if StepLength(s) == 2 then s[..2] else EscapeUnit(s[0])
  }

  function Escape(s: Text): Text {
    if s == [] then [] else StepText(s) + Escape(s[StepLength(s)..])
  }

  /** QuoteJSONString. */
  function Quoted(s: Text): Text {
    [QUOTE] + Escape(s) + [QUOTE]
  }

  function Stringify(v: Json): Text
    decreases v, 0
  {
    match v
    case Null => [110, 117, 108, 108]
    case Bool(flag) => if flag then [116, 114, 117, 101] else [102, 97, 108, 115, 101]
    case Num(number) => PrintNumber(number)
    case Str(text) => Quoted(text)
    case Arr(items) => [OPEN_BRACKET] + (ItemsText(items) + [CLOSE_BRACKET])
    case Obj(fields) => [OPEN_BRACE] + (FieldsText(fields) + [CLOSE_BRACE])
  }

  function ItemsText(items: seq<Json>): Text
    decreases items, 1
  {
    if items == [] then [] else Stringify(items[0]) + MoreItems(items[1..])
  }

  function MoreItems(items: seq<Json>): Text
    decreases items, 1
  {
    if items == [] then [] else [COMMA] + (Stringify(items[0]) + MoreItems(items[1..]))
  }

  function FieldText(field: Field): Text
    decreases field, 1
  {
    Quoted(field.key) + ([COLON] + Stringify(field.value))
  }

  function FieldsText(fields: seq<Field>): Text
    decreases fields, 1
  {
    if fields == [] then [] else FieldText(fields[0]) + MoreFields(fields[1..])
  }

  function MoreFields(fields: seq<Field>): Text
    decreases fields, 1
  {
    if fields == [] then [] else [COMMA] + (FieldText(fields[0]) + MoreFields(fields[1..]))
  }

  // ----- strings are self-delimiting -----

  lemma {:induction false} UnicodeEscapeIsInjective(u: CodeUnit, v: CodeUnit)
    requires UnicodeEscape(u) == UnicodeEscape(v)
    ensures u == v
  {
    var a, b := UnicodeEscape(u), UnicodeEscape(v);
    assert a[2] == b[2] && a[3] == b[3] && a[4] == b[4] && a[5] == b[5];
    HexDigitIsInjective(u as int / 4096, v as int / 4096);
    HexDigitIsInjective(u as int / 256 % 16, v as int / 256 % 16);
    HexDigitIsInjective(u as int / 16 % 16, v as int / 16 % 16);
    HexDigitIsInjective(u as int % 16, v as int % 16);
    FourDigits(u as int);
    FourDigits(v as int);
  }

  lemma {:induction false} HexDigitIsInjective(d: int, e: int)
    requires 0 <= d < 16 && 0 <= e < 16 && HexDigit(d) == HexDigit(e)
    ensures d == e
  {
  }

  lemma {:induction false} FourDigits(n: int)
    requires 0 <= n < 0x1_0000
    ensures n == 4096 * (n / 4096) + 256 * (n / 256 % 16) + 16 * (n / 16 % 16) + n % 16
  {
    DivideAgain(n, 16);
    DivideAgain(n, 256);
  }

  lemma {:induction false} DivideAgain(n: int, d: int)
    requires 0 <= n && (d == 16 || d == 256)
    ensures n / d == 16 * (n / (16 * d)) + n / d % 16
  {
    assert n / d / 16 == n / (16 * d);
  }

  lemma {:induction false} EscapeUnitIsInjective(u: CodeUnit, v: CodeUnit)
    requires EscapeUnit(u) == EscapeUnit(v)
    ensures u == v
  {
    var a, b := EscapeUnit(u), EscapeUnit(v);
    assert |a| == |b| && a[0] == b[0] && (|a| > 1 ==> a[1] == b[1]);
    if |a| == 6 {
      UnicodeEscapeIsInjective(u, v);
    }
  }

  /** The units at the start of a text determine how many units its first step printed. */
  function PrintedLength(w: Text): nat {
    if |w| < 2 then 1
    else if w[0] == BACKSLASH then (if w[1] == SMALL_U then 6 else 2)
    else if IsHighSurrogate(w[0]) then 2
    else 1
  }

  lemma {:induction false} StepIsDelimited(s: Text, rest: Text)
    requires s != []
    ensures |StepText(s)| == PrintedLength(StepText(s) + rest)
    ensures StepText(s)[0] != QUOTE
  {
    var w := StepText(s) + rest;
    assert w[0] == StepText(s)[0];
    assert |StepText(s)| > 1 ==> w[1] == StepText(s)[1];
  }

  lemma {:induction false} StepIsInjective(s: Text, t: Text)
    requires s != [] && t != [] && StepText(s) == StepText(t)
    ensures StepLength(s) == StepLength(t)
    ensures s[..StepLength(s)] == t[..StepLength(t)]
  {
    var a, b := StepText(s), StepText(t);
    assert a[0] == b[0];
    if StepLength(s) == 1 && StepLength(t) == 1 {
      EscapeUnitIsInjective(s[0], t[0]);
    }
  }

  lemma {:induction false} FirstStep(s: Text, x: Text)
    ensures (Escape(s) + ([QUOTE] + x))[0] == QUOTE <==> s == []
  {
    if s != [] {
      StepIsDelimited(s, []);
      assert (Escape(s) + ([QUOTE] + x))[0] == StepText(s)[0];
    }
  }

  lemma {:induction false} EscapeStarts(s: Text, x: Text)
    requires s != []
    ensures Escape(s) + ([QUOTE] + x) == StepText(s) + (Escape(s[StepLength(s)..]) + ([QUOTE] + x))
  {
  }

  lemma {:induction false} StepsAgree(s: Text, p: Text, t: Text, q: Text)
    requires s != [] && t != [] && StepText(s) + p == StepText(t) + q
    ensures StepText(s) == StepText(t) && p == q
  {
    var whole := StepText(s) + p;
    StepIsDelimited(s, p);
    StepIsDelimited(t, q);
    assert whole[..|StepText(s)|] == StepText(s) && whole[..|StepText(t)|] == StepText(t);
    CancelPrefix(StepText(s), p, q);
  }

  lemma {:induction false} EscapeIsDelimited(s: Text, x: Text, t: Text, y: Text)
    requires Escape(s) + ([QUOTE] + x) == Escape(t) + ([QUOTE] + y)
    ensures s == t && x == y
    decreases |s|
  {
    if s == [] || t == [] {
      FirstStep(s, x);
      FirstStep(t, y);
      assert Escape(s) + ([QUOTE] + x) == [QUOTE] + x && Escape(t) + ([QUOTE] + y) == [QUOTE] + y;
      CancelPrefix([QUOTE], x, y);
    } else {
      var s', t' := s[StepLength(s)..], t[StepLength(t)..];
      EscapeStarts(s, x);
      EscapeStarts(t, y);
      StepsAgree(s, Escape(s') + ([QUOTE] + x), t, Escape(t') + ([QUOTE] + y));
      StepIsInjective(s, t);
      EscapeIsDelimited(s', x, t', y);
      assert s == s[..StepLength(s)] + s' && t == t[..StepLength(t)] + t';
    }
  }

  lemma {:induction false} QuotedIsDelimited(s: Text, x: Text, t: Text, y: Text)
    requires Quoted(s) + x == Quoted(t) + y
    ensures s == t && x == y
  {
    hide Escape;
    assert Quoted(s) + x == [QUOTE] + (Escape(s) + ([QUOTE] + x));
    assert Quoted(t) + y == [QUOTE] + (Escape(t) + ([QUOTE] + y));
    CancelPrefix([QUOTE], Escape(s) + ([QUOTE] + x), Escape(t) + ([QUOTE] + y));
    EscapeIsDelimited(s, x, t, y);
  }

  // ----- values are self-delimiting where a comma or a closing bracket may follow -----

  predicate Ends(x: Text) {
    x == [] || x[0] == COMMA || x[0] == CLOSE_BRACKET || x[0] == CLOSE_BRACE
  }

  datatype Kind = KNull | KTrue | KFalse | KNumber | KString | KArray | KObject | KNone

  function KindOf(v: Json): Kind {
    match v
    case Null => KNull
    case Bool(flag) => if flag then KTrue else KFalse
    case Num(_) => KNumber
    case Str(_) => KString
    case Arr(_) => KArray
    case Obj(_) => KObject
  }

  /** The kind of value a text starts with, read off its first unit. */
  function KindOfUnit(u: CodeUnit): Kind {
    if u == 110 then KNull
    else if u == 116 then KTrue
    else if u == 102 then KFalse
    else if IsDigit(u) || u == MINUS then KNumber
    else if u == QUOTE then KString
    else if u == OPEN_BRACKET then KArray
    else if u == OPEN_BRACE then KObject
    else KNone
  }

  lemma {:induction false} StartsWithKind(v: Json)
    ensures Stringify(v) != [] && KindOfUnit(Stringify(v)[0]) == KindOf(v)
  {
    if v.Num? {
      NumberUnits(v.number);
    }
  }

  lemma {:induction false} NumberIsDelimited(a: Number, x: Text, b: Number, y: Text)
    requires PrintNumber(a) + x == PrintNumber(b) + y && Ends(x) && Ends(y)
    ensures a == b && x == y
  {
    NumberUnits(a);
    NumberUnits(b);
    SameSpan(IsNumberUnit, PrintNumber(a), x, PrintNumber(b), y);
    PrintNumberIsInjective(a, b);
  }

  lemma {:induction false} ValueIsDelimited(a: Json, x: Text, b: Json, y: Text)
    requires Stringify(a) + x == Stringify(b) + y && Ends(x) && Ends(y)
    ensures a == b && x == y
    decreases a, 0
  {
    StartsWithKind(a);
    StartsWithKind(b);
    assert (Stringify(a) + x)[0] == Stringify(a)[0] && (Stringify(b) + y)[0] == Stringify(b)[0];
    assert KindOf(a) == KindOf(b);
    match a
    case Null => CancelPrefix(Stringify(a), x, y);
    case Bool(_) => CancelPrefix(Stringify(a), x, y);
    case Num(n) => NumberIsDelimited(n, x, b.number, y);
    case Str(s) => QuotedIsDelimited(s, x, b.text, y);
    case Arr(items) =>
      var p, q := ItemsText(items) + ([CLOSE_BRACKET] + x), ItemsText(b.items) + ([CLOSE_BRACKET] + y);
      assert Stringify(a) + x == [OPEN_BRACKET] + p;
      assert Stringify(b) + y == [OPEN_BRACKET] + q;
      CancelPrefix([OPEN_BRACKET], p, q);
      ItemsAreDelimited(items, x, b.items, y);
    case Obj(fields) =>
      var p, q := FieldsText(fields) + ([CLOSE_BRACE] + x), FieldsText(b.fields) + ([CLOSE_BRACE] + y);
      assert Stringify(a) + x == [OPEN_BRACE] + p;
      assert Stringify(b) + y == [OPEN_BRACE] + q;
      CancelPrefix([OPEN_BRACE], p, q);
      FieldsAreDelimited(fields, x, b.fields, y);
  }

  lemma {:induction false} ItemsAreDelimited(a: seq<Json>, x: Text, b: seq<Json>, y: Text)
    requires ItemsText(a) + ([CLOSE_BRACKET] + x) == ItemsText(b) + ([CLOSE_BRACKET] + y)
    ensures a == b && x == y
    decreases a, 1
  {
    if a == [] || b == [] {
      FirstItem(a, x);
      FirstItem(b, y);
      assert ItemsText([]) + ([CLOSE_BRACKET] + x) == [CLOSE_BRACKET] + x;
      assert ItemsText([]) + ([CLOSE_BRACKET] + y) == [CLOSE_BRACKET] + y;
      CancelPrefix([CLOSE_BRACKET], x, y);
    } else {
      var p, q := MoreItems(a[1..]) + ([CLOSE_BRACKET] + x), MoreItems(b[1..]) + ([CLOSE_BRACKET] + y);
      assert ItemsText(a) + ([CLOSE_BRACKET] + x) == Stringify(a[0]) + p;
      assert ItemsText(b) + ([CLOSE_BRACKET] + y) == Stringify(b[0]) + q;
      ValueIsDelimited(a[0], p, b[0], q);
      MoreItemsAreDelimited(a[1..], x, b[1..], y);
      assert a == [a[0]] + a[1..] && b == [b[0]] + b[1..];
    }
  }

  lemma {:induction false} FirstItem(a: seq<Json>, x: Text)
    ensures (ItemsText(a) + ([CLOSE_BRACKET] + x))[0] == CLOSE_BRACKET <==> a == []
  {
    if a != [] {
      StartsWithKind(a[0]);
      assert (ItemsText(a) + ([CLOSE_BRACKET] + x))[0] == Stringify(a[0])[0];
    }
  }

  lemma {:induction false} MoreItemsAreDelimited(a: seq<Json>, x: Text, b: seq<Json>, y: Text)
    requires MoreItems(a) + ([CLOSE_BRACKET] + x) == MoreItems(b) + ([CLOSE_BRACKET] + y)
    ensures a == b && x == y
    decreases a, 1
  {
    var left, right := MoreItems(a) + ([CLOSE_BRACKET] + x), MoreItems(b) + ([CLOSE_BRACKET] + y);
    assert left[0] == if a == [] then CLOSE_BRACKET else COMMA;
    assert right[0] == if b == [] then CLOSE_BRACKET else COMMA;
    if a == [] {
      assert left == [CLOSE_BRACKET] + x && right == [CLOSE_BRACKET] + y;
      CancelPrefix([CLOSE_BRACKET], x, y);
    } else {
      var p, q := MoreItems(a[1..]) + ([CLOSE_BRACKET] + x), MoreItems(b[1..]) + ([CLOSE_BRACKET] + y);
      assert left == [COMMA] + (Stringify(a[0]) + p);
      assert right == [COMMA] + (Stringify(b[0]) + q);
      CancelPrefix([COMMA], Stringify(a[0]) + p, Stringify(b[0]) + q);
      ValueIsDelimited(a[0], p, b[0], q);
      MoreItemsAreDelimited(a[1..], x, b[1..], y);
      assert a == [a[0]] + a[1..] && b == [b[0]] + b[1..];
    }
  }

  lemma {:induction false} FieldIsDelimited(a: Field, x: Text, b: Field, y: Text)
    requires FieldText(a) + x == FieldText(b) + y && Ends(x) && Ends(y)
    ensures a == b && x == y
    decreases a, 1
  {
    var p, q := [COLON] + (Stringify(a.value) + x), [COLON] + (Stringify(b.value) + y);
    assert FieldText(a) + x == Quoted(a.key) + p;
    assert FieldText(b) + y == Quoted(b.key) + q;
    QuotedIsDelimited(a.key, p, b.key, q);
    CancelPrefix([COLON], Stringify(a.value) + x, Stringify(b.value) + y);
    ValueIsDelimited(a.value, x, b.value, y);
  }

  lemma {:induction false} FieldsAreDelimited(a: seq<Field>, x: Text, b: seq<Field>, y: Text)
    requires FieldsText(a) + ([CLOSE_BRACE] + x) == FieldsText(b) + ([CLOSE_BRACE] + y)
    ensures a == b && x == y
    decreases a, 2
  {
    hide Escape;
    var left, right := FieldsText(a) + ([CLOSE_BRACE] + x), FieldsText(b) + ([CLOSE_BRACE] + y);
    assert left[0] == if a == [] then CLOSE_BRACE else QUOTE;
    assert right[0] == if b == [] then CLOSE_BRACE else QUOTE;
    if a == [] {
      assert left == [CLOSE_BRACE] + x && right == [CLOSE_BRACE] + y;
      CancelPrefix([CLOSE_BRACE], x, y);
    } else {
      var p, q := MoreFields(a[1..]) + ([CLOSE_BRACE] + x), MoreFields(b[1..]) + ([CLOSE_BRACE] + y);
      assert left == FieldText(a[0]) + p;
      assert right == FieldText(b[0]) + q;
      FieldIsDelimited(a[0], p, b[0], q);
      MoreFieldsAreDelimited(a[1..], x, b[1..], y);
      assert a == [a[0]] + a[1..] && b == [b[0]] + b[1..];
    }
  }

  lemma {:induction false} MoreFieldsAreDelimited(a: seq<Field>, x: Text, b: seq<Field>, y: Text)
    requires MoreFields(a) + ([CLOSE_BRACE] + x) == MoreFields(b) + ([CLOSE_BRACE] + y)
    ensures a == b && x == y
    decreases a, 2
  {
    var left, right := MoreFields(a) + ([CLOSE_BRACE] + x), MoreFields(b) + ([CLOSE_BRACE] + y);
    assert left[0] == if a == [] then CLOSE_BRACE else COMMA;
    assert right[0] == if b == [] then CLOSE_BRACE else COMMA;
    if a == [] {
      assert left == [CLOSE_BRACE] + x && right == [CLOSE_BRACE] + y;
      CancelPrefix([CLOSE_BRACE], x, y);
    } else {
      var p, q := MoreFields(a[1..]) + ([CLOSE_BRACE] + x), MoreFields(b[1..]) + ([CLOSE_BRACE] + y);
      assert left == [COMMA] + (FieldText(a[0]) + p);
      assert right == [COMMA] + (FieldText(b[0]) + q);
      CancelPrefix([COMMA], FieldText(a[0]) + p, FieldText(b[0]) + q);
      FieldIsDelimited(a[0], p, b[0], q);
      MoreFieldsAreDelimited(a[1..], x, b[1..], y);
      assert a == [a[0]] + a[1..] && b == [b[0]] + b[1..];
    }
  }

  /** `JSON.stringify` is unambiguous. */
  lemma {:induction false} StringifyIsInjective(a: Json, b: Json)
    requires Stringify(a) == Stringify(b)
    ensures a == b
  {
    assert Stringify(a) + [] == Stringify(a) && Stringify(b) + [] == Stringify(b);
    ValueIsDelimited(a, [], b, []);
  }
}
