/**
 Comparing JSON values by a canonical text.

 `CanonicalJson` is the comparison key of captured-document-operation.ts; the
 uniqueness check of openai-output-schema.ts instead rebuilds every object with
 sorted keys and prints it with `JSON.stringify`, which enumerates array-index keys
 first. Both keys are exact: two values have the same key if and only if they are
 the same JSON value up to the order of object properties.
 */
module CanonicalJson {
  import opened Texts
  import opened JsNumbers
  import opened JsonText

  // ----- what it means to be the same JSON value -----

  /** A JavaScript object has at most one own property of a given name. */
  predicate DistinctKeys(fields: seq<Field>) {
    forall i, j :: 0 <= i < j < |fields| ==> fields[i].key != fields[j].key
  }

  predicate IsValue(v: Json) {
    match v
    case Arr(items) => forall i :: 0 <= i < |items| ==> IsValue(items[i])
    case Obj(fields) => DistinctKeys(fields) && forall i :: 0 <= i < |fields| ==> IsValue(fields[i].value)
    case _ => true
  }

  /** Equality of JSON values: array items in order, object properties in any order. */
  ghost predicate Same(a: Json, b: Json)
    decreases a
  {
    match a
    case Arr(items) =>
      && b.Arr?
      && |items| == |b.items|
      && forall i :: 0 <= i < |items| ==> Same(items[i], b.items[i])
    case Obj(fields) =>
      && b.Obj?
      && (forall i :: 0 <= i < |fields| ==>
            exists j :: 0 <= j < |b.fields| && b.fields[j].key == fields[i].key && Same(fields[i].value, b.fields[j].value))
      && (forall j :: 0 <= j < |b.fields| ==> HasKey(fields, b.fields[j].key))
    case _ => a == b
  }

  predicate HasKey(fields: seq<Field>, key: Text) {
    exists i :: 0 <= i < |fields| && fields[i].key == key
  }

  // ----- key orders -----

  /** `Array.prototype.sort` on names, and the order in which a rebuilt object enumerates them. */
  datatype KeyOrder = ByCodeUnit | ByEnumeration

  const MAX_INDEX_TEXT: Text := [52, 50, 57, 52, 57, 54, 55, 50, 57, 53]

  /** A canonical decimal numeral below 2^32 - 1. */
  predicate IsArrayIndex(k: Text) {
    && AllDigits(k)
    && (|k| == 1 || (|k| > 1 && k[0] != 48))
    && (|k| < 10 || (|k| == 10 && Less(k, MAX_INDEX_TEXT)))
  }

  predicate IndexLess(a: Text, b: Text) {
    |a| < |b| || (|a| == |b| && Less(a, b))
  }

  predicate KeyLess(order: KeyOrder, a: Text, b: Text) {
    match order
    case ByCodeUnit => Less(a, b)
    case ByEnumeration =>
      if IsArrayIndex(a) then !IsArrayIndex(b) || IndexLess(a, b) else !IsArrayIndex(b) && Less(a, b)
  }

  lemma {:induction false} KeyLessIsStrictOrder(order: KeyOrder, a: Text, b: Text, c: Text)
    ensures a == b || KeyLess(order, a, b) || KeyLess(order, b, a)
    ensures KeyLess(order, a, b) ==> !KeyLess(order, b, a)
    ensures KeyLess(order, a, b) && KeyLess(order, b, c) ==> KeyLess(order, a, c)
  {
    LessIsTotal(a, b);
    if Less(a, b) {
      LessIsAsymmetric(a, b);
    }
    if Less(a, b) && Less(b, c) {
      LessIsTransitive(a, b, c);
    }
  }

  // ----- sorting the properties of an object -----

  function Insert(order: KeyOrder, f: Field, fields: seq<Field>): seq<Field> {
    if fields == [] || KeyLess(order, f.key, fields[0].key) then [f] + fields
    else [fields[0]] + Insert(order, f, fields[1..])
  }

  function SortFields(order: KeyOrder, fields: seq<Field>): (r: seq<Field>) {
    if fields == [] then [] else Insert(order, fields[0], SortFields(order, fields[1..]))
  }

  /** A value with the properties of every object in it sorted. */
  function SortKeys(order: KeyOrder, v: Json): Json
    decreases v, 0
  {
    match v
    case Arr(items) => Arr(SortItems(order, items))
    case Obj(fields) => Obj(SortFields(order, SortValues(order, fields)))
    case _ => v
  }

  function SortItems(order: KeyOrder, items: seq<Json>): (r: seq<Json>)
    ensures |r| == |items| && forall i :: 0 <= i < |items| ==> r[i] == SortKeys(order, items[i])
    decreases items, 1
  {
    if items == [] then [] else [SortKeys(order, items[0])] + SortItems(order, items[1..])
  }

  function SortValues(order: KeyOrder, fields: seq<Field>): (r: seq<Field>)
    ensures |r| == |fields|
    ensures forall i :: 0 <= i < |fields| ==> r[i] == Field(fields[i].key, SortKeys(order, fields[i].value))
    decreases fields, 1
  {
    if fields == [] then []
    else [Field(fields[0].key, SortKeys(order, fields[0].value))] + SortValues(order, fields[1..])
  }

  predicate StrictlySorted(order: KeyOrder, fields: seq<Field>) {
    forall i, j :: 0 <= i < j < |fields| ==> KeyLess(order, fields[i].key, fields[j].key)
  }

  lemma {:induction false} InsertKeepsMembers(order: KeyOrder, f: Field, fields: seq<Field>)
    ensures forall g :: g in Insert(order, f, fields) <==> g == f || g in fields
  {
    if fields != [] && !KeyLess(order, f.key, fields[0].key) {
      InsertKeepsMembers(order, f, fields[1..]);
      assert forall g :: g in fields <==> g == fields[0] || g in fields[1..];
    }
  }

  lemma {:induction false} InsertKeepsOrder(order: KeyOrder, f: Field, fields: seq<Field>)
    requires StrictlySorted(order, fields)
    requires forall g :: g in fields ==> g.key != f.key
    ensures StrictlySorted(order, Insert(order, f, fields))
  {
    var r := Insert(order, f, fields);
    if fields == [] {
    } else if KeyLess(order, f.key, fields[0].key) {
      forall j | 0 < j < |r| ensures KeyLess(order, r[0].key, r[j].key) {
        KeyLessIsStrictOrder(order, f.key, fields[0].key, fields[j - 1].key);
      }
    } else {
      InsertKeepsOrder(order, f, fields[1..]);
      InsertKeepsMembers(order, f, fields[1..]);
      KeyLessIsStrictOrder(order, f.key, fields[0].key, f.key);
      assert fields[0] in fields;
      forall j | 0 < j < |r| ensures KeyLess(order, r[0].key, r[j].key) {
        assert r[j] in Insert(order, f, fields[1..]);
      }
    }
  }

  lemma {:induction false} SortKeepsMembers(order: KeyOrder, fields: seq<Field>)
    ensures forall g :: g in SortFields(order, fields) <==> g in fields
  {
    if fields != [] {
      SortKeepsMembers(order, fields[1..]);
      InsertKeepsMembers(order, fields[0], SortFields(order, fields[1..]));
      assert forall g :: g in fields <==> g == fields[0] || g in fields[1..];
    }
  }

  lemma {:induction false} SortSorts(order: KeyOrder, fields: seq<Field>)
    requires DistinctKeys(fields)
    ensures StrictlySorted(order, SortFields(order, fields))
  {
    if fields != [] {
      SortSorts(order, fields[1..]);
      SortKeepsMembers(order, fields[1..]);
      InsertKeepsOrder(order, fields[0], SortFields(order, fields[1..]));
    }
  }

  /** Strictly sorted property lists with the same members are the same list. */
  lemma {:induction false} SortedIsUnique(order: KeyOrder, a: seq<Field>, b: seq<Field>)
    requires StrictlySorted(order, a) && StrictlySorted(order, b)
    requires forall g :: g in a <==> g in b
    ensures a == b
  {
    if a == [] || b == [] {
      NonEmptyHasMember(a);
      NonEmptyHasMember(b);
    } else {
      FirstIsLeast(order, a, b[0]);
      FirstIsLeast(order, b, a[0]);
      KeyLessIsStrictOrder(order, a[0].key, b[0].key, a[0].key);
      TailMembers(order, a);
      TailMembers(order, b);
      SortedIsUnique(order, a[1..], b[1..]);
      assert a == [a[0]] + a[1..] && b == [b[0]] + b[1..];
    }
  }

  lemma {:induction false} NonEmptyHasMember(fields: seq<Field>)
    ensures fields != [] ==> exists g :: g in fields
  {
    if fields != [] {
      assert fields[0] in fields;
    }
  }

  lemma {:induction false} FirstIsLeast(order: KeyOrder, fields: seq<Field>, g: Field)
    requires StrictlySorted(order, fields) && fields != []
    requires g in fields
    ensures g == fields[0] || KeyLess(order, fields[0].key, g.key)
  {
  }

  lemma {:induction false} TailMembers(order: KeyOrder, fields: seq<Field>)
    requires StrictlySorted(order, fields) && fields != []
    ensures forall g :: g in fields[1..] <==> g in fields && g != fields[0]
  {
    forall g | g in fields[1..] ensures g != fields[0] {
      KeyLessIsStrictOrder(order, fields[0].key, g.key, g.key);
    }
  }

  // ----- sorted values are equal exactly when the values are the same -----

  lemma {:induction false} SortedEqualImpliesSame(order: KeyOrder, a: Json, b: Json)
    requires SortKeys(order, a) == SortKeys(order, b)
    ensures Same(a, b)
    decreases a
  {
    hide SortFields;
    match a
    case Arr(items) =>
      forall i | 0 <= i < |items| ensures Same(items[i], b.items[i]) {
        assert SortItems(order, items)[i] == SortItems(order, b.items)[i];
        SortedEqualImpliesSame(order, items[i], b.items[i]);
      }
    case Obj(fields) => SortedObjectsAreSame(order, fields, b.fields);
    case _ =>
  }

  lemma {:induction false} SortedObjectsAreSame(order: KeyOrder, fields: seq<Field>, others: seq<Field>)
    requires SortFields(order, SortValues(order, fields)) == SortFields(order, SortValues(order, others))
    ensures Same(Obj(fields), Obj(others))
    decreases fields, 1
  {
    hide SortFields, HasKey;
    SortedFieldsHaveSame(order, fields, others);
    SortedFieldsHaveKeys(order, fields, others);
  }

  lemma {:induction false} SortedFieldsHaveSame(order: KeyOrder, fields: seq<Field>, others: seq<Field>)
    requires SortFields(order, SortValues(order, fields)) == SortFields(order, SortValues(order, others))
    ensures forall i :: 0 <= i < |fields| ==>
      exists j :: 0 <= j < |others| && others[j].key == fields[i].key && Same(fields[i].value, others[j].value)
    decreases fields, 0
  {
    var x, y := SortValues(order, fields), SortValues(order, others);
    SortKeepsMembers(order, x);
    SortKeepsMembers(order, y);
    forall i | 0 <= i < |fields|
      ensures exists j :: 0 <= j < |others| && others[j].key == fields[i].key && Same(fields[i].value, others[j].value)
    {
      assert x[i] in y;
      var j :| 0 <= j < |y| && y[j] == x[i];
      SortedEqualImpliesSame(order, fields[i].value, others[j].value);
    }
  }

  lemma {:induction false} SortedFieldsHaveKeys(order: KeyOrder, fields: seq<Field>, others: seq<Field>)
    requires SortFields(order, SortValues(order, fields)) == SortFields(order, SortValues(order, others))
    ensures forall j :: 0 <= j < |others| ==> HasKey(fields, others[j].key)
  {
    var x, y := SortValues(order, fields), SortValues(order, others);
    SortKeepsMembers(order, x);
    SortKeepsMembers(order, y);
    forall j | 0 <= j < |others| ensures HasKey(fields, others[j].key) {
      assert y[j] in x;
    }
  }

  lemma {:induction false} SameImpliesSortedEqual(order: KeyOrder, a: Json, b: Json)
    requires IsValue(a) && IsValue(b) && Same(a, b)
    ensures SortKeys(order, a) == SortKeys(order, b)
    decreases a
  {
    hide SortFields;
    match a
    case Arr(items) =>
      forall i | 0 <= i < |items| ensures SortItems(order, items)[i] == SortItems(order, b.items)[i] {
        SameImpliesSortedEqual(order, items[i], b.items[i]);
      }
      assert SortItems(order, items) == SortItems(order, b.items);
    case Obj(fields) => SameObjectsSortEqual(order, fields, b.fields);
    case _ =>
  }

  lemma {:induction false} SameObjectsSortEqual(order: KeyOrder, fields: seq<Field>, others: seq<Field>)
    requires IsValue(Obj(fields)) && IsValue(Obj(others)) && Same(Obj(fields), Obj(others))
    ensures SortFields(order, SortValues(order, fields)) == SortFields(order, SortValues(order, others))
    decreases fields
  {
    hide SortFields;
    var x, y := SortValues(order, fields), SortValues(order, others);
    forall i, j | 0 <= i < |fields| && 0 <= j < |others| && fields[i].key == others[j].key ensures x[i] == y[j] {
      var k :| 0 <= k < |others| && others[k].key == fields[i].key && Same(fields[i].value, others[k].value);
      assert k == j;
      SameImpliesSortedEqual(order, fields[i].value, others[j].value);
    }
    SameMembers(fields, others, x, y);
    SortKeepsMembers(order, x);
    SortKeepsMembers(order, y);
    SortSorts(order, x);
    SortSorts(order, y);
    SortedIsUnique(order, SortFields(order, x), SortFields(order, y));
  }

  lemma {:induction false} SameMembers(a: seq<Field>, b: seq<Field>, x: seq<Field>, y: seq<Field>)
    requires |x| == |a| && |y| == |b|
    requires forall i :: 0 <= i < |a| ==> HasKey(b, a[i].key)
    requires forall j :: 0 <= j < |b| ==> HasKey(a, b[j].key)
    requires forall i, j :: 0 <= i < |a| && 0 <= j < |b| && a[i].key == b[j].key ==> x[i] == y[j]
    ensures forall g :: g in x <==> g in y
  {
    forall g | g in x ensures g in y {
      var i :| 0 <= i < |x| && x[i] == g;
      var j :| 0 <= j < |b| && b[j].key == a[i].key;
      assert y[j] == g;
    }
    forall g | g in y ensures g in x {
      var j :| 0 <= j < |y| && y[j] == g;
      var i :| 0 <= i < |a| && a[i].key == b[j].key;
      assert x[i] == g;
    }
  }

  /** Printing with sorted keys is a faithful comparison key, for either order. */
  lemma {:induction false} SortedTextIsFaithful(order: KeyOrder, a: Json, b: Json)
    requires IsValue(a) && IsValue(b)
    ensures Stringify(SortKeys(order, a)) == Stringify(SortKeys(order, b)) <==> Same(a, b)
  {
    if Stringify(SortKeys(order, a)) == Stringify(SortKeys(order, b)) {
      StringifyIsInjective(SortKeys(order, a), SortKeys(order, b));
      SortedEqualImpliesSame(order, a, b);
    }
    if Same(a, b) {
      SameImpliesSortedEqual(order, a, b);
    }
  }

  // ----- canonicalJson as it is written -----

  function Size(v: Json): nat
    decreases v, 0
  {
    match v
    case Arr(items) => 1 + ItemsSize(items)
    case Obj(fields) => 1 + FieldsSize(fields)
    case _ => 1
  }

  function ItemsSize(items: seq<Json>): nat
    decreases items, 1
  {
    if items == [] then 0 else 1 + Size(items[0]) + ItemsSize(items[1..])
  }

  function FieldsSize(fields: seq<Field>): nat
    decreases fields, 1
  {
    if fields == [] then 0 else 1 + Size(fields[0].value) + FieldsSize(fields[1..])
  }

  lemma {:induction false} InsertKeepsSize(order: KeyOrder, f: Field, fields: seq<Field>)
    ensures FieldsSize(Insert(order, f, fields)) == 1 + Size(f.value) + FieldsSize(fields)
  {
    if fields == [] || KeyLess(order, f.key, fields[0].key) {
      assert ([f] + fields)[1..] == fields;
    } else {
      InsertKeepsSize(order, f, fields[1..]);
      assert Insert(order, f, fields)[1..] == Insert(order, f, fields[1..]);
    }
  }

  lemma {:induction false} SortKeepsSize(order: KeyOrder, fields: seq<Field>)
    ensures FieldsSize(SortFields(order, fields)) == FieldsSize(fields)
  {
    if fields != [] {
      SortKeepsSize(order, fields[1..]);
      InsertKeepsSize(order, fields[0], SortFields(order, fields[1..]));
    }
  }

  function CanonicalJson(v: Json): Text
    decreases Size(v)
  {
    match v
    case Arr(items) => [OPEN_BRACKET] + (Join(CanonicalItems(items), [COMMA]) + [CLOSE_BRACKET])
    case Obj(fields) =>
      SortKeepsSize(ByCodeUnit, fields);
      [OPEN_BRACE] + (Join(CanonicalEntries(SortFields(ByCodeUnit, fields)), [COMMA]) + [CLOSE_BRACE])
    case _ => Stringify(v)
  }

  function CanonicalItems(items: seq<Json>): seq<Text>
    decreases ItemsSize(items)
  {
    if items == [] then [] else [CanonicalJson(items[0])] + CanonicalItems(items[1..])
  }

  function CanonicalEntries(fields: seq<Field>): seq<Text>
    decreases FieldsSize(fields)
  {
    if fields == [] then []
    else [Quoted(fields[0].key) + ([COLON] + CanonicalJson(fields[0].value))] + CanonicalEntries(fields[1..])
  }

  lemma {:induction false} JoinStep(first: Text, rest: seq<Text>)
    ensures Join([first] + rest, [COMMA]) == if rest == [] then first else first + ([COMMA] + Join(rest, [COMMA]))
  {
    assert ([first] + rest)[1..] == rest;
  }

  lemma {:induction false} CanonicalIsStringify(v: Json)
    ensures CanonicalJson(v) == Stringify(SortKeys(ByCodeUnit, v))
    decreases Size(v)
  {
    match v
    case Arr(items) => CanonicalItemsText(items);
    case Obj(fields) =>
      SortKeepsSize(ByCodeUnit, fields);
      CanonicalFieldsText(SortFields(ByCodeUnit, fields));
      SortCommutes(fields);
    case _ =>
  }

  lemma {:induction false} CanonicalItemsText(items: seq<Json>)
    ensures Join(CanonicalItems(items), [COMMA]) == ItemsText(SortItems(ByCodeUnit, items))
    ensures items != [] ==> [COMMA] + Join(CanonicalItems(items), [COMMA]) == MoreItems(SortItems(ByCodeUnit, items))
    decreases ItemsSize(items)
  {
    if items != [] {
      CanonicalIsStringify(items[0]);
      CanonicalItemsText(items[1..]);
      JoinStep(CanonicalJson(items[0]), CanonicalItems(items[1..]));
      assert SortItems(ByCodeUnit, items)[1..] == SortItems(ByCodeUnit, items[1..]);
    }
  }

  lemma {:induction false} CanonicalFieldsText(fields: seq<Field>)
    ensures Join(CanonicalEntries(fields), [COMMA]) == FieldsText(SortValues(ByCodeUnit, fields))
    ensures fields != [] ==> [COMMA] + Join(CanonicalEntries(fields), [COMMA]) == MoreFields(SortValues(ByCodeUnit, fields))
    decreases FieldsSize(fields)
  {
    if fields != [] {
      CanonicalIsStringify(fields[0].value);
      CanonicalFieldsText(fields[1..]);
      JoinStep(Quoted(fields[0].key) + ([COLON] + CanonicalJson(fields[0].value)), CanonicalEntries(fields[1..]));
      assert SortValues(ByCodeUnit, fields)[1..] == SortValues(ByCodeUnit, fields[1..]);
    }
  }

  lemma {:induction false} InsertCommutes(f: Field, fields: seq<Field>)
    ensures SortValues(ByCodeUnit, Insert(ByCodeUnit, f, fields))
         == Insert(ByCodeUnit, Field(f.key, SortKeys(ByCodeUnit, f.value)), SortValues(ByCodeUnit, fields))
  {
    var mapped := SortValues(ByCodeUnit, fields);
    if fields == [] || KeyLess(ByCodeUnit, f.key, fields[0].key) {
      assert ([f] + fields)[1..] == fields;
    } else {
      InsertCommutes(f, fields[1..]);
      assert Insert(ByCodeUnit, f, fields)[1..] == Insert(ByCodeUnit, f, fields[1..]);
      assert mapped[1..] == SortValues(ByCodeUnit, fields[1..]);
    }
  }

  lemma {:induction false} SortCommutes(fields: seq<Field>)
    ensures SortValues(ByCodeUnit, SortFields(ByCodeUnit, fields)) == SortFields(ByCodeUnit, SortValues(ByCodeUnit, fields))
  {
    if fields != [] {
      SortCommutes(fields[1..]);
      InsertCommutes(fields[0], SortFields(ByCodeUnit, fields[1..]));
      assert SortValues(ByCodeUnit, fields)[1..] == SortValues(ByCodeUnit, fields[1..]);
    }
  }

  /** `canonicalJson(a) === canonicalJson(b)` decides equality up to object property order. */
  lemma {:induction false} CanonicalJsonIsFaithful(a: Json, b: Json)
    requires IsValue(a) && IsValue(b)
    ensures CanonicalJson(a) == CanonicalJson(b) <==> Same(a, b)
  {
    CanonicalIsStringify(a);
    CanonicalIsStringify(b);
    SortedTextIsFaithful(ByCodeUnit, a, b);
  }

  const UNDEFINED: Text := [117, 110, 100, 101, 102, 105, 110, 101, 100]

  /** `canonicalJson` of a value that may be absent. */
  function CanonicalOptional(v: Optional): Text {
    match v
    case Absent => UNDEFINED
    case Present(value) => CanonicalJson(value)
  }

  datatype Optional = Absent | Present(value: Json)

  /** The text "undefined" of an absent value is never the text of a JSON value. */
  lemma {:induction false} CanonicalOptionalIsFaithful(a: Optional, b: Optional)
    requires a.Present? ==> IsValue(a.value)
    requires b.Present? ==> IsValue(b.value)
    ensures CanonicalOptional(a) == CanonicalOptional(b)
       <==> (a.Absent? && b.Absent?) || (a.Present? && b.Present? && Same(a.value, b.value))
  {
    if a.Present? {
      CanonicalIsStringify(a.value);
      StartsWithKind(SortKeys(ByCodeUnit, a.value));
    }
    if b.Present? {
      CanonicalIsStringify(b.value);
      StartsWithKind(SortKeys(ByCodeUnit, b.value));
    }
    if a.Present? && b.Present? {
      CanonicalJsonIsFaithful(a.value, b.value);
    }
  }
}
