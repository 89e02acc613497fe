/**
 The JSON grammar (RFC 8259, sections 4 to 7), said as a relation between texts and the
 values they write, and what `canonicalJson` of captured-document-operation.ts (lines
 164-176) prints in its terms: the value itself, with the names of every object in
 ascending order of their code units.
 */
module JsonGrammar {
  import opened Texts
  import opened JsNumbers
  import opened JsonText
  import opened C = CanonicalJson

  // ----- strings -----

  /** The letter after a backslash that writes this unit. */
  predicate HasShortEscape(u: CodeUnit, letter: CodeUnit) {
    || (u == 8 && letter == 'b' as CodeUnit) || (u == 9 && letter == 't' as CodeUnit)
    || (u == 10 && letter == 'n' as CodeUnit) || (u == 12 && letter == 'f' as CodeUnit) || (u == 13 && letter == 'r' as CodeUnit)
    || (u == '"' as CodeUnit && letter == u) || (u == '\\' as CodeUnit && letter == u)
  }

  predicate IsSurrogate(u: CodeUnit) {
    0xD800 <= u <= 0xDFFF
  }

  predicate NeedsNumber(u: CodeUnit) {
    (u < 32 && u !in {8, 9, 10, 12, 13}) || IsSurrogate(u)
  }

  /** A unit written by itself, by a short escape, or by its number; each where the ones before do not serve. */
  predicate WritesUnit(t: Text, u: CodeUnit) {
    || (|t| == 1 && t[0] == u && u >= 32 && u != '"' as CodeUnit && u != '\\' as CodeUnit && !IsSurrogate(u))
    || (|t| == 2 && t[0] == '\\' as CodeUnit && HasShortEscape(u, t[1]))
    || (|t| == 6 && t[..2] == Ascii("\\u") && IsWriting(t[2..], u as nat, 16) && NeedsNumber(u))
  }

  /** The text between the quotation marks, one code point after the other; a surrogate pair is written as it is. */
  ghost predicate WritesUnits(t: Text, s: Text)
    decreases |s|
  {
    if s == [] then t == []
    else if StepLength(s) == 2 then |t| >= 2 && t[..2] == s[..2] && WritesUnits(t[2..], s[2..])
    else exists k: nat :: k <= |t| && WritesUnit(t[..k], s[0]) && WritesUnits(t[k..], s[1..])
  }

  ghost predicate WritesString(t: Text, s: Text) {
    |t| >= 2 && t[0] == '"' as CodeUnit && t[|t| - 1] == '"' as CodeUnit && WritesUnits(t[1..|t| - 1], s)
  }

  lemma {:induction false} HexFigure(d: int)
    requires 0 <= d < 16
    ensures IsFigure(HexDigit(d), d)
  {
  }

  lemma {:induction false} FourFigures(t: Text, n: nat)
    requires |t| == 4 && n < 0x1_0000
    requires IsFigure(t[0], n / 4096) && IsFigure(t[1], n / 256 % 16) && IsFigure(t[2], n / 16 % 16) && IsFigure(t[3], n % 16)
    ensures IsWriting(t, n, 16)
  {
    var three, two, one := t[..3], t[..3][..2], t[..3][..2][..1];
    assert n / 16 / 16 == n / 256 && n / 256 / 16 == n / 4096 && n / 4096 < 16;
    assert IsWriting(one, n / 4096, 16);
    assert IsWriting(two, n / 256, 16);
    assert IsWriting(three, n / 16, 16);
  }

  lemma {:induction false} EscapeWrites(u: CodeUnit)
    ensures WritesUnit(EscapeUnit(u), u)
  {
    hide IsWriting;
    if EscapeUnit(u) == UnicodeEscape(u) && |EscapeUnit(u)| == 6 {
      var t, n := UnicodeEscape(u), u as int;
      HexFigure(n / 4096);
      HexFigure(n / 256 % 16);
      HexFigure(n / 16 % 16);
      HexFigure(n % 16);
      FourFigures(t[2..], n);
      assert t[..2] == Ascii("\\u");
    }
  }

  lemma {:induction false} EscapesWrite(s: Text)
    ensures WritesUnits(Escape(s), s)
    decreases |s|
  {
    hide WritesUnit;
    if s != [] {
      var k := StepLength(s);
      var first := StepText(s);
      EscapesWrite(s[k..]);
      assert Escape(s)[..|first|] == first && Escape(s)[|first|..] == Escape(s[k..]);
      if k == 1 {
        EscapeWrites(s[0]);
      }
    }
  }

  lemma {:induction false} QuotedWrites(s: Text)
    ensures WritesString(Quoted(s), s)
  {
    EscapesWrite(s);
    assert Quoted(s)[1..|Quoted(s)| - 1] == Escape(s);
  }

  // ----- numbers -----

  /**
   Digits that denote 0.digits times ten to the power `point`, in full up to twenty-one
   digits before the point and down to six zeros after it, and otherwise with one digit
   before the point and an exponent. There is a point only if a digit follows it.
   */
  predicate WritesMagnitude(t: Text, digits: Text, point: int) {
    && ReadMagnitude(t) == (digits, point)
    && (EXPONENT in t <==> point > 21 || point <= -6)
    && (POINT in t <==> if EXPONENT in t then |digits| > 1 else point < |digits|)
    && t != [] && IsDigit(t[0]) && (t[0] == 48 <==> -6 < point <= 0)
    && (EXPONENT in t && POINT in t ==> t[1] == POINT)
  }

  predicate WritesNumber(t: Text, n: Number) {
    match n
    case Zero => t == Ascii("0")
    case Decimal(negative, digits, point) =>
      if negative then t != [] && t[0] == '-' as CodeUnit && WritesMagnitude(t[1..], digits, point) else WritesMagnitude(t, digits, point)
  }

  lemma {:induction false} DigitsOnly(t: Text)
    requires AllDigits(t)
    ensures EXPONENT !in t && POINT !in t
  {
  }

  lemma {:induction false} SignedOnly(e: int)
    ensures EXPONENT !in SignedText(e) && POINT !in SignedText(e)
  {
  }

  lemma {:induction false} MagnitudeWrites(digits: Text, point: int)
    requires IsShortest(Decimal(false, digits, point))
    ensures WritesMagnitude(PrintMagnitude(digits, point), digits, point)
  {
    hide ReadMagnitude, SignedText, AllDigits;
    MagnitudeRoundTrip(digits, point);
    DigitsOnly(digits);
    SignedOnly(point - 1);
    MagnitudeStart(digits, point);
    if point <= -6 || point > 21 {
      var t := PrintMagnitude(digits, point);
      if |digits| == 1 {
        assert t[1] == EXPONENT && t[0] == digits[0];
      } else {
        assert t[1] == POINT && t[|digits| + 1] == EXPONENT && t[0] == digits[0];
      }
    } else if point < |digits| && point > 0 {
      assert PrintMagnitude(digits, point)[point] == POINT;
    } else if point <= 0 {
      assert PrintMagnitude(digits, point)[1] == POINT;
    }
  }

  lemma {:induction false} NumberWrites(n: Number)
    ensures WritesNumber(PrintNumber(n), n)
  {
    hide WritesMagnitude, PrintMagnitude;
    if n.Decimal? {
      MagnitudeWrites(n.digits, n.point);
      assert ([MINUS] + PrintMagnitude(n.digits, n.point))[1..] == PrintMagnitude(n.digits, n.point);
    }
  }

  // ----- values -----

  /** The text writes the value, with no white space and the properties in this order. */
  ghost predicate Writes(t: Text, v: Json)
    decreases v, 0
  {
    match v
    case Null => t == Ascii("null")
    case Bool(flag) => t == if flag then Ascii("true") else Ascii("false")
    case Num(n) => WritesNumber(t, n)
    case Str(text) => WritesString(t, text)
    case Arr(items) => exists parts: seq<Text> :: WriteItems(parts, items) && t == Ascii("[") + Join(parts, Ascii(",")) + Ascii("]")
    case Obj(fields) => exists parts: seq<Text> :: WriteFields(parts, fields) && t == Ascii("{") + Join(parts, Ascii(",")) + Ascii("}")
  }

  ghost predicate WriteItems(parts: seq<Text>, items: seq<Json>)
    decreases items, 1
  {
    |parts| == |items| && forall i :: 0 <= i < |items| ==> Writes(parts[i], items[i])
  }

  ghost predicate WriteFields(parts: seq<Text>, fields: seq<Field>)
    decreases fields, 1
  {
    |parts| == |fields| && forall i :: 0 <= i < |fields| ==> WritesField(parts[i], fields[i])
  }

  ghost predicate WritesField(t: Text, f: Field)
    decreases f, 1
  {
    exists k: nat :: k < |t| && WritesString(t[..k], f.key) && t[k] == ':' as CodeUnit && Writes(t[k + 1..], f.value)
  }

  lemma {:induction false} Marks()
    ensures Ascii("[") == [OPEN_BRACKET] && Ascii("]") == [CLOSE_BRACKET] && Ascii("{") == [OPEN_BRACE] && Ascii("}") == [CLOSE_BRACE]
    ensures Ascii(",") == [COMMA] && Ascii("null") == [110, 117, 108, 108]
    ensures Ascii("true") == [116, 114, 117, 101] && Ascii("false") == [102, 97, 108, 115, 101]
  {
  }

  function ItemParts(items: seq<Json>): (r: seq<Text>)
    ensures |r| == |items| && forall i :: 0 <= i < |r| ==> r[i] == Stringify(items[i])
  {
    if items == [] then [] else [Stringify(items[0])] + ItemParts(items[1..])
  }

  function FieldParts(fields: seq<Field>): (r: seq<Text>)
    ensures |r| == |fields| && forall i :: 0 <= i < |r| ==> r[i] == FieldText(fields[i])
  {
    if fields == [] then [] else [FieldText(fields[0])] + FieldParts(fields[1..])
  }

  lemma {:induction false} ItemsAreJoined(items: seq<Json>)
    ensures ItemsText(items) == Join(ItemParts(items), [COMMA])
    ensures items != [] ==> MoreItems(items) == [COMMA] + Join(ItemParts(items), [COMMA])
  {
    hide Stringify;
    if items != [] {
      ItemsAreJoined(items[1..]);
      JoinStep(Stringify(items[0]), ItemParts(items[1..]));
    }
  }

  lemma {:induction false} FieldsAreJoined(fields: seq<Field>)
    ensures FieldsText(fields) == Join(FieldParts(fields), [COMMA])
    ensures fields != [] ==> MoreFields(fields) == [COMMA] + Join(FieldParts(fields), [COMMA])
  {
    hide FieldText;
    if fields != [] {
      FieldsAreJoined(fields[1..]);
      JoinStep(FieldText(fields[0]), FieldParts(fields[1..]));
    }
  }

  lemma {:induction false} FieldIsWritten(f: Field)
    requires Writes(Stringify(f.value), f.value)
    ensures WritesField(FieldText(f), f)
  {
    hide WritesString, Writes, Stringify, Quoted;
    var t, k := FieldText(f), |Quoted(f.key)|;
    QuotedWrites(f.key);
    assert t[..k] == Quoted(f.key) && t[k + 1..] == Stringify(f.value);
  }

  lemma {:induction false} ItemsAreWritten(items: seq<Json>)
    requires forall i :: 0 <= i < |items| ==> Writes(Stringify(items[i]), items[i])
    ensures Writes(Stringify(Arr(items)), Arr(items))
  {
    hide ItemsText;
    Marks();
    ItemsAreJoined(items);
    assert WriteItems(ItemParts(items), items);
    assert [OPEN_BRACKET] + (ItemsText(items) + [CLOSE_BRACKET]) == [OPEN_BRACKET] + ItemsText(items) + [CLOSE_BRACKET];
  }

  lemma {:induction false} FieldsAreWritten(fields: seq<Field>)
    requires forall i :: 0 <= i < |fields| ==> WritesField(FieldText(fields[i]), fields[i])
    ensures Writes(Stringify(Obj(fields)), Obj(fields))
  {
    hide FieldsText, FieldText, WritesField;
    Marks();
    FieldsAreJoined(fields);
    assert WriteFields(FieldParts(fields), fields);
    assert [OPEN_BRACE] + (FieldsText(fields) + [CLOSE_BRACE]) == [OPEN_BRACE] + FieldsText(fields) + [CLOSE_BRACE];
  }

  /** `JSON.stringify` writes the value. */
  lemma {:induction false} StringifyWrites(v: Json)
    ensures Writes(Stringify(v), v)
    decreases v
  {
    hide Writes, WritesField, FieldText;
    match v
    case Arr(items) =>
      forall i | 0 <= i < |items| ensures Writes(Stringify(items[i]), items[i]) {
        StringifyWrites(items[i]);
      }
      ItemsAreWritten(items);
    case Obj(fields) =>
      forall i | 0 <= i < |fields| ensures WritesField(FieldText(fields[i]), fields[i]) {
        StringifyWrites(fields[i].value);
        FieldIsWritten(fields[i]);
      }
      FieldsAreWritten(fields);
    case _ => PrimitiveIsWritten(v);
  }

  lemma {:induction false} PrimitiveIsWritten(v: Json)
    requires !v.Arr? && !v.Obj?
    ensures Writes(Stringify(v), v)
  {
    hide WritesString, WritesNumber, Quoted, PrintNumber;
    Marks();
    match v
    case Num(n) => NumberWrites(n);
    case Str(text) => QuotedWrites(text);
    case _ =>
  }

  // ----- sorted names -----

  /** A shorter text comes before what it begins; otherwise the first differing unit decides. */
  ghost predicate Precedes(a: Text, b: Text) {
    exists k: nat :: k <= |a| && k < |b| && a[..k] == b[..k] && (k == |a| || a[k] < b[k])
  }

  lemma {:induction false} LessExactly(a: Text, b: Text)
    ensures Less(a, b) <==> Precedes(a, b)
  {
    if a != [] && b != [] && a[0] == b[0] {
      LessExactly(a[1..], b[1..]);
      if k: nat :| k <= |a[1..]| && k < |b[1..]| && a[1..][..k] == b[1..][..k] && (k == |a[1..]| || a[1..][k] < b[1..][k]) {
        assert a[..k + 1] == [a[0]] + a[1..][..k] && b[..k + 1] == [b[0]] + b[1..][..k];
        assert k + 1 <= |a| && k + 1 < |b| && a[..k + 1] == b[..k + 1] && (k + 1 == |a| || a[k + 1] < b[k + 1]);
      }
      if k: nat :| k <= |a| && k < |b| && a[..k] == b[..k] && (k == |a| || a[k] < b[k]) {
        assert k > 0;
        assert a[1..][..k - 1] == a[..k][1..] && b[1..][..k - 1] == b[..k][1..];
        assert Precedes(a[1..], b[1..]);
      }
    } else if a == [] && b != [] {
      assert a[..0] == b[..0];
    } else if a != [] && b != [] {
      assert a[..0] == b[..0];
      if k: nat :| k <= |a| && k < |b| && a[..k] == b[..k] && (k == |a| || a[k] < b[k]) {
        assert k > 0 ==> a[..k][0] == b[..k][0];
      }
    }
  }

  ghost predicate InOrder(fields: seq<Field>) {
    forall i, j :: 0 <= i < j < |fields| ==> Precedes(fields[i].key, fields[j].key)
  }

  /** The same value with the names of every object in ascending order. */
  ghost predicate IsSortedCopy(v: Json, w: Json)
    decreases v, 1
  {
    match v
    case Arr(items) => w.Arr? && |w.items| == |items| && forall i :: 0 <= i < |items| ==> IsSortedCopy(items[i], w.items[i])
    case Obj(fields) => w.Obj? && |w.fields| == |fields| && InOrder(w.fields) && forall i :: 0 <= i < |fields| ==> HasCopy(fields[i], w.fields)
    case _ => w == v
  }

  ghost predicate HasCopy(f: Field, fields: seq<Field>)
    decreases f, 1
  {
    exists j :: 0 <= j < |fields| && fields[j].key == f.key && IsSortedCopy(f.value, fields[j].value)
  }

  lemma {:induction false} InsertAddsOne(order: KeyOrder, f: Field, fields: seq<Field>)
    ensures |Insert(order, f, fields)| == |fields| + 1
  {
    if fields != [] && !KeyLess(order, f.key, fields[0].key) {
      InsertAddsOne(order, f, fields[1..]);
    }
  }

  lemma {:induction false} SortKeepsCount(order: KeyOrder, fields: seq<Field>)
    ensures |SortFields(order, fields)| == |fields|
  {
    if fields != [] {
      SortKeepsCount(order, fields[1..]);
      InsertAddsOne(order, fields[0], SortFields(order, fields[1..]));
    }
  }

  lemma {:induction false} FieldsAreSorted(fields: seq<Field>)
    requires DistinctKeys(fields)
    ensures InOrder(SortFields(ByCodeUnit, SortValues(ByCodeUnit, fields)))
  {
    hide Precedes;
    var values := SortValues(ByCodeUnit, fields);
    SortSorts(ByCodeUnit, values);
    var r := SortFields(ByCodeUnit, values);
    forall i, j | 0 <= i < j < |r| ensures Precedes(r[i].key, r[j].key) {
      LessExactly(r[i].key, r[j].key);
    }
  }

  lemma {:induction false} SortKeysIsSortedCopy(v: Json)
    requires IsValue(v)
    ensures IsSortedCopy(v, SortKeys(ByCodeUnit, v))
    decreases v, 1
  {
    hide InOrder, SortFields;
    match v
    case Arr(items) =>
      forall i | 0 <= i < |items| ensures IsSortedCopy(items[i], SortItems(ByCodeUnit, items)[i]) {
        SortKeysIsSortedCopy(items[i]);
      }
    case Obj(fields) =>
      var values := SortValues(ByCodeUnit, fields);
      SortKeepsCount(ByCodeUnit, values);
      FieldsAreSorted(fields);
      SortKeepsMembers(ByCodeUnit, values);
      forall i | 0 <= i < |fields| ensures HasCopy(fields[i], SortFields(ByCodeUnit, values)) {
        SortKeysIsSortedCopy(fields[i].value);
        assert values[i] in SortFields(ByCodeUnit, values);
      }
    case _ =>
  }

  /** `canonicalJson` prints the value itself, with the names of every object in ascending order. */
  lemma {:induction false} CanonicalJsonWrites(v: Json)
    requires IsValue(v)
    ensures exists w :: IsSortedCopy(v, w) && Writes(CanonicalJson(v), w)
  {
    hide IsSortedCopy, Writes, SortKeys, CanonicalJson, IsValue;
    SortKeysIsSortedCopy(v);
    CanonicalIsStringify(v);
    StringifyWrites(SortKeys(ByCodeUnit, v));
  }

  // ----- the order in which a rebuilt object enumerates its names -----

  lemma {:induction false} NumeralStart(n: nat)
    ensures NatText(n)[0] == 48 ==> n == 0
    ensures |NatText(n)| == 1 <==> n < 10
  {
    if n >= 10 {
      NumeralStart(n / 10);
    }
  }

  lemma {:induction false} NumeralOf(k: Text)
    requires AllDigits(k) && k != [] && (|k| == 1 || k[0] != 48)
    ensures NatText(NatValue(k)) == k
  {
    if |k| > 1 {
      var front := k[..|k| - 1];
      NumeralOf(front);
      NumeralStart(NatValue(front));
      assert NatValue(front) > 0;
      assert k == front + [k[|k| - 1]];
    } else {
      assert k[..0] == [];
    }
  }

  lemma {:induction false} LessAppended(a: Text, b: Text, x: CodeUnit, y: CodeUnit)
    requires |a| == |b| && (Less(a, b) || (a == b && x < y))
    ensures Less(a + [x], b + [y])
  {
    if a != [] {
      assert (a + [x])[1..] == a[1..] + [x] && (b + [y])[1..] == b[1..] + [y];
      if a[0] == b[0] {
        LessAppended(a[1..], b[1..], x, y);
      }
    }
  }

  lemma {:induction false} NumeralsAscend(m: nat, n: nat)
    requires m < n
    ensures IndexLess(NatText(m), NatText(n))
    decreases n
  {
    hide Less;
    NumeralStart(m);
    NumeralStart(n);
    if n < 10 {
      OneFigureAscends(m, n);
    } else if m >= 10 {
      if m / 10 < n / 10 {
        NumeralsAscend(m / 10, n / 10);
      }
      if |NatText(m / 10)| == |NatText(n / 10)| {
        LessAppended(NatText(m / 10), NatText(n / 10), (48 + m % 10) as CodeUnit, (48 + n % 10) as CodeUnit);
      }
    }
  }

  lemma {:induction false} OneFigureAscends(m: nat, n: nat)
    requires m < n < 10
    ensures IndexLess(NatText(m), NatText(n))
  {
    assert NatText(m) == [(48 + m) as CodeUnit] && NatText(n) == [(48 + n) as CodeUnit];
  }

  /** Array indices are ordered by their numbers. */
  lemma {:induction false} IndexLessExactly(m: nat, n: nat)
    ensures IndexLess(NatText(m), NatText(n)) <==> m < n
  {
    hide Less;
    if m < n {
      NumeralsAscend(m, n);
    } else if n < m {
      NumeralsAscend(n, m);
      if Less(NatText(n), NatText(m)) {
        LessIsAsymmetric(NatText(n), NatText(m));
      }
    } else if Less(NatText(m), NatText(n)) {
      LessIsAsymmetric(NatText(m), NatText(n));
    }
  }

  lemma {:induction false} LargestIndex()
    ensures NatText(4294967295) == MAX_INDEX_TEXT
  {
    assert NatText(42) == [52, 50];
    assert NatText(4294) == [52, 50, 57, 52];
    assert NatText(429496) == [52, 50, 57, 52, 57, 54];
    assert NatText(42949672) == [52, 50, 57, 52, 57, 54, 55, 50];
  }

  /** A name is an array index exactly when it is the numeral of a number below 2^32 - 1. */
  lemma {:induction false} ArrayIndexExactly(k: Text)
    ensures IsArrayIndex(k) <==> exists n: nat :: n < 0xFFFF_FFFF && k == NatText(n)
  {
    hide Less;
    LargestIndex();
    if IsArrayIndex(k) {
      NumeralOf(k);
      IndexLessExactly(NatValue(k), 0xFFFF_FFFF);
    }
    if n: nat :| n < 0xFFFF_FFFF && k == NatText(n) {
      NumeralStart(n);
      IndexLessExactly(n, 0xFFFF_FFFF);
    }
  }
}
