/**
 openai-output-schema.ts: removing `uniqueItems` from an output schema and
 compiling a local check that puts it back.

 The schema language is the part of JSON Schema draft 2020-12 that the compiler
 traverses; every other keyword travels unread in `rest` and has an arbitrary
 meaning. `Accepts` is the standard's own semantics, with no reference to the
 compiler. The main result is `PreparedSchemaIsExact`: the wire schema and the local
 check accept exactly the values that the source accepts and keeps (`IsKept`), so they
 never accept more than the source; `PreparedSchemaPreservesMeaning` says when they
 accept no less.
 */
module OutputSchema {
  import opened Texts
  import opened JsonText
  import opened CanonicalJson
  import JsNumbers

  datatype TypeName = TNull | TBoolean | TNumber | TInteger | TString | TArray | TObject

  datatype TypeKeyword = NoType | OneType(name: TypeName) | TypeList(names: seq<TypeName>)

  datatype UniqueKeyword = NoUnique | Unique(flag: bool) | UniqueMalformed

  datatype Properties = NoProperties | Properties(list: seq<Property>)

  datatype Property = Property(key: Text, schema: Schema)

  datatype Required = NoRequired | Required(keys: seq<Text>)

  datatype Items = NoItems | Items(schema: Schema)

  datatype Union = NoUnion | AnyOf(branches: seq<Schema>)

  /** Objects are schemas with keywords; `true` and `false` are schemas too, but no records. */
  datatype Schema = BooleanSchema(accepts: bool) | Record(keywords: Keywords)

  datatype Keywords = Keywords(
    types: TypeKeyword,
    unique: UniqueKeyword,
    properties: Properties,
    required: Required,
    closed: bool,
    items: Items,
    anyOf: Union,
    defs: Properties,
    reference: bool,
    rest: Text)

  // ----- the meaning of a schema -----

  /** Keywords the compiler does not look at, interpreted by the reader of the schema. */
  type Meaning = (Text, Json) -> bool

  predicate IsOfType(name: TypeName, v: Json) {
    match name
    case TNull => v.Null?
    case TBoolean => v.Bool?
    case TNumber => v.Num?
    case TInteger => v.Num? && JsNumbers.IsInteger(v.number)
    case TString => v.Str?
    case TArray => v.Arr?
    case TObject => v.Obj?
  }

  predicate TypesAccept(types: TypeKeyword, v: Json) {
    match types
    case NoType => true
    case OneType(name) => IsOfType(name, v)
    case TypeList(names) => exists i :: 0 <= i < |names| && IsOfType(names[i], v)
  }

  /** Validation section 6.4.3: no two items are the same JSON value. */
  ghost predicate ItemsDiffer(items: seq<Json>) {
    forall i, j :: 0 <= i < j < |items| ==> !Same(items[i], items[j])
  }

  function PropertyList(properties: Properties): seq<Property> {
    match properties
    case NoProperties => []
    case Properties(list) => list
  }

  predicate Declares(properties: seq<Property>, key: Text) {
    exists i :: 0 <= i < |properties| && properties[i].key == key
  }

  predicate RequiredAccepts(required: Required, v: Json) {
    v.Obj? && required.Required? ==> forall i :: 0 <= i < |required.keys| ==> HasKey(v.fields, required.keys[i])
  }

  predicate ClosedAccepts(k: Keywords, v: Json) {
    v.Obj? && k.closed ==> forall j :: 0 <= j < |v.fields| ==> Declares(PropertyList(k.properties), v.fields[j].key)
  }

  ghost predicate Accepts(meaning: Meaning, s: Schema, v: Json)
    decreases s
  {
    match s
    case BooleanSchema(accepts) => accepts
    case Record(k) =>
      && TypesAccept(k.types, v)
      && (k.unique == Unique(true) && v.Arr? ==> ItemsDiffer(v.items))
      && PropertiesAccept(meaning, k.properties, v)
      && RequiredAccepts(k.required, v)
      && ClosedAccepts(k, v)
      && ItemsAccept(meaning, k.items, v)
      && UnionAccepts(meaning, k.anyOf, v)
      && meaning(k.rest, v)
  }

  ghost predicate ItemsAccept(meaning: Meaning, items: Items, v: Json)
    decreases items
  {
    items.Items? && v.Arr? ==> forall i :: 0 <= i < |v.items| ==> Accepts(meaning, items.schema, v.items[i])
  }

  /** Core section 10.2.1.2: some branch accepts the value. */
  ghost predicate UnionAccepts(meaning: Meaning, union: Union, v: Json)
    decreases union
  {
    union.AnyOf? ==> BranchAccepts(meaning, union.branches, v)
  }

  ghost predicate BranchAccepts(meaning: Meaning, branches: seq<Schema>, v: Json)
    decreases branches
  {
    exists i :: 0 <= i < |branches| && Accepts(meaning, branches[i], v)
  }

  ghost predicate PropertiesAccept(meaning: Meaning, properties: Properties, v: Json)
    decreases properties
  {
    properties.Properties? ==> ListAccepts(meaning, properties.list, v)
  }

  ghost predicate ListAccepts(meaning: Meaning, list: seq<Property>, v: Json)
    decreases list
  {
    forall i :: 0 <= i < |list| ==> PropertyAccepts(meaning, list[i], v)
  }

  ghost predicate PropertyAccepts(meaning: Meaning, p: Property, v: Json)
    decreases p
  {
    v.Obj? ==> forall j :: 0 <= j < |v.fields| && v.fields[j].key == p.key ==> Accepts(meaning, p.schema, v.fields[j].value)
  }

  // ----- local checks -----

  /** The closures pushed by `compile`, with what each one captures. */
  datatype Check =
    | UniqueCheck
    | PropertyCheck(key: Text, checks: seq<Check>)
    | ItemsCheck(checks: seq<Check>)
    | UnionCheck(branches: seq<Branch>)

  datatype Branch = Branch(selector: Selector, checks: seq<Check>)

  datatype Selector = Selector(identity: Text, test: Test)

  datatype Test = HasExactlyKeys(keyText: Text) | HasType(types: TypeKeyword)

  /** `JSON.stringify([...keys].sort())`. */
  function KeyListText(keys: seq<Text>): Text {
    Stringify(Arr(AsStrings(SortFields(ByCodeUnit, AsFields(keys)))))
  }

  function AsFields(keys: seq<Text>): (r: seq<Field>)
    ensures |r| == |keys| && forall i :: 0 <= i < |keys| ==> r[i] == Field(keys[i], Null)
  {
    if keys == [] then [] else [Field(keys[0], Null)] + AsFields(keys[1..])
  }

  function AsStrings(fields: seq<Field>): (r: seq<Json>)
    ensures |r| == |fields| && forall i :: 0 <= i < |fields| ==> r[i] == Str(fields[i].key)
  {
    if fields == [] then [] else [Str(fields[0].key)] + AsStrings(fields[1..])
  }

  function FieldKeys(fields: seq<Field>): (r: seq<Text>)
    ensures |r| == |fields| && forall i :: 0 <= i < |fields| ==> r[i] == fields[i].key
  {
    if fields == [] then [] else [fields[0].key] + FieldKeys(fields[1..])
  }

  function PropertyKeys(properties: seq<Property>): (r: seq<Text>)
    ensures |r| == |properties| && forall i :: 0 <= i < |properties| ==> r[i] == properties[i].key
  {
    if properties == [] then [] else [properties[0].key] + PropertyKeys(properties[1..])
  }

  predicate Matches(selector: Selector, v: Json) {
    match selector.test
    case HasExactlyKeys(keyText) => v.Obj? && KeyListText(FieldKeys(v.fields)) == keyText
    case HasType(types) => types.OneType? && types.name != TObject && IsOfType(types.name, v)
  }

  /** `JSON.stringify(canonical(item))`: `canonical` rebuilds objects, which then enumerate in their own order. */
  function ItemText(item: Json): Text {
    Stringify(SortKeys(ByEnumeration, item))
  }

  function ItemTexts(items: seq<Json>): (r: seq<Text>)
    ensures |r| == |items| && forall i :: 0 <= i < |items| ==> r[i] == ItemText(items[i])
  {
    if items == [] then [] else [ItemText(items[0])] + ItemTexts(items[1..])
  }

  predicate AllHold(checks: seq<Check>, v: Json)
    decreases checks, 0
  {
    forall i :: 0 <= i < |checks| ==> Holds(checks[i], v)
  }

  predicate Holds(check: Check, v: Json)
    decreases check, 1
  {
    match check
    case UniqueCheck => v.Arr? ==> |ToSet(ItemTexts(v.items))| == |v.items|
    case PropertyCheck(key, checks) =>
      v.Obj? ==> forall j :: 0 <= j < |v.fields| && v.fields[j].key == key ==> AllHold(checks, v.fields[j].value)
    case ItemsCheck(checks) => v.Arr? ==> forall i :: 0 <= i < |v.items| ==> AllHold(checks, v.items[i])
    case UnionCheck(branches) => SomeSelected(branches, v)
  }

  predicate SomeSelected(branches: seq<Branch>, v: Json)
    decreases branches, 2
  {
    exists i :: 0 <= i < |branches| && IsSelected(branches[i], v)
  }

  predicate IsSelected(branch: Branch, v: Json)
    decreases branch, 2
  {
    Matches(branch.selector, v) && AllHold(branch.checks, v)
  }

  // ----- the compiler -----

  /** What one part of a schema compiles to; `Refused` is the thrown OpenAIOutputSchemaError. */
  datatype Part<+T> = Refused | Part(wire: T, checks: seq<Check>, hasUnique: bool, hasReference: bool)

  function TypeText(name: TypeName): Text {
    match name
    case TNull => [110, 117, 108, 108]
    case TBoolean => [98, 111, 111, 108, 101, 97, 110]
    case TNumber => [110, 117, 109, 98, 101, 114]
    case TInteger => [105, 110, 116, 101, 103, 101, 114]
    case TString => [115, 116, 114, 105, 110, 103]
    case TArray => [97, 114, 114, 97, 121]
    case TObject => [111, 98, 106, 101, 99, 116]
  }

  const OBJECT_PREFIX: Text := [111, 98, 106, 101, 99, 116, 58]

  datatype SelectorResult = NoSelector | Selects(selector: Selector)

  /** `String(type)` of a list of names is the names joined by commas, so a list of one name looks like that name. */
  function UnionSelector(k: Keywords): SelectorResult {
    if k.types == OneType(TObject) then
      if !k.closed || k.properties.NoProperties? || k.required.NoRequired? then NoSelector
      else
        var keyText := KeyListText(PropertyKeys(k.properties.list));
        if KeyListText(k.required.keys) != keyText then NoSelector
        else Selects(Selector(OBJECT_PREFIX + keyText, HasExactlyKeys(keyText)))
    else match k.types
      case OneType(name) => Selects(Selector(TypeText(if name == TInteger then TNumber else name), HasType(k.types)))
      case TypeList(names) =>
        if |names| == 1 && names[0] != TObject then Selects(Selector(TypeText(names[0]), HasType(k.types))) else NoSelector
      case NoType => NoSelector
  }

  function CompileKeywords(k: Keywords): Part<Keywords>
    decreases k
  {
    if k.unique != NoUnique && (k.types != OneType(TArray) || k.unique.UniqueMalformed?) then Refused
    else
      var properties := CompileDeclared(k.properties);
      var items := CompileItems(k.items);
      var union := CompileUnion(k.anyOf);
      var defs := CompileDeclared(k.defs);
      if properties.Refused? || items.Refused? || union.Refused? || defs.Refused? then Refused
      else Part(
        k.(unique := NoUnique,
           properties := properties.wire,
           items := items.wire,
           anyOf := union.wire,
           defs := defs.wire),
        (if k.unique == Unique(true) then [UniqueCheck] else []) + properties.checks + items.checks + union.checks,
        k.unique == Unique(true) || properties.hasUnique || items.hasUnique || union.hasUnique || defs.hasUnique,
        k.reference || properties.hasReference || items.hasReference || union.hasReference || defs.hasReference)
  }

  function CompileDeclared(properties: Properties): Part<Properties>
    decreases properties
  {
    match properties
    case NoProperties => Part(NoProperties, [], false, false)
    case Properties(list) =>
      var p := CompileProperties(list);
      if p.Refused? then Refused else Part(Properties(p.wire), p.checks, p.hasUnique, p.hasReference)
  }

  function CompileProperties(list: seq<Property>): Part<seq<Property>>
    decreases list
  {
    if list == [] then Part([], [], false, false)
    else
      var before := CompileProperties(list[..|list| - 1]);
      var last := list[|list| - 1];
      var child := CompileSchema(last.schema);
      if before.Refused? || child.Refused? then Refused
      else Part(
        before.wire + [Property(last.key, Record(child.wire))],
        before.checks + [PropertyCheck(last.key, child.checks)],
        before.hasUnique || child.hasUnique,
        before.hasReference || child.hasReference)
  }

  function CompileItems(items: Items): Part<Items>
    decreases items
  {
    if items.Items? && items.schema.Record? then
      var child := CompileKeywords(items.schema.keywords);
      if child.Refused? then Refused
      else Part(Items(Record(child.wire)), [ItemsCheck(child.checks)], child.hasUnique, child.hasReference)
    else Part(items, [], false, false)
  }

  function CompileUnion(union: Union): Part<Union>
    decreases union
  {
    if union.NoUnion? then Part(union, [], false, false)
    else
      var parts := CompileBranches(union.branches);
      if parts == [] && union.branches != [] then Refused
      else
        var wire := AnyOf(WireBranches(parts));
        if !SomeUnique(parts) then Part(wire, [], false, SomeReference(parts))
        else
          var branches := SelectBranches(parts);
          if |branches| != |parts| || Ambiguous(parts, branches) then Refused
          else Part(wire, [UnionCheck(branches)], true, SomeReference(parts))
  }

  function CompileSchema(s: Schema): Part<Keywords>
    decreases s
  {
    match s
    case BooleanSchema(_) => Refused
    case Record(k) => CompileKeywords(k)
  }

  /** The compiled branches in order, or nothing when one of them is refused. */
  function CompileBranches(branches: seq<Schema>): (parts: seq<Part<Keywords>>)
    ensures parts == [] || |parts| == |branches|
    ensures forall i :: 0 <= i < |parts| ==> parts[i].Part? && parts[i] == CompileSchema(branches[i])
    decreases branches
  {
    if branches == [] then []
    else
      var before := CompileBranches(branches[..|branches| - 1]);
      var last := branches[|branches| - 1];
      if before == [] && |branches| > 1 then []
      else
        var child := CompileSchema(last);
        if child.Refused? then [] else before + [child]
  }

  function WireBranches(parts: seq<Part<Keywords>>): (r: seq<Schema>)
    requires forall i :: 0 <= i < |parts| ==> parts[i].Part?
    ensures |r| == |parts| && forall i :: 0 <= i < |parts| ==> r[i] == Record(parts[i].wire)
  {
    if parts == [] then [] else [Record(parts[0].wire)] + WireBranches(parts[1..])
  }

  predicate SomeUnique(parts: seq<Part<Keywords>>)
    requires forall i :: 0 <= i < |parts| ==> parts[i].Part?
  {
    exists i :: 0 <= i < |parts| && parts[i].hasUnique
  }

  predicate SomeReference(parts: seq<Part<Keywords>>)
    requires forall i :: 0 <= i < |parts| ==> parts[i].Part?
  {
    exists i :: 0 <= i < |parts| && parts[i].hasReference
  }

  /** A selector for every branch; shorter than `parts` when some branch has none. */
  function SelectBranches(parts: seq<Part<Keywords>>): (r: seq<Branch>)
    requires forall i :: 0 <= i < |parts| ==> parts[i].Part?
    ensures |r| <= |parts|
    ensures |r| == |parts| <==> forall i :: 0 <= i < |parts| ==> UnionSelector(parts[i].wire).Selects?
    ensures |r| == |parts| ==> forall i :: 0 <= i < |parts| ==>
              UnionSelector(parts[i].wire) == Selects(r[i].selector) && r[i].checks == parts[i].checks
  {
    if parts == [] then []
    else match UnionSelector(parts[0].wire)
      case NoSelector => []
      case Selects(selector) => [Branch(selector, parts[0].checks)] + SelectBranches(parts[1..])
  }

  predicate Ambiguous(parts: seq<Part<Keywords>>, branches: seq<Branch>)
    requires |parts| == |branches| && forall i :: 0 <= i < |parts| ==> parts[i].Part?
  {
    exists i, j :: 0 <= i < |parts| && 0 <= j < |parts| && i != j && Clash(parts, branches, i, j)
  }

  predicate Clash(parts: seq<Part<Keywords>>, branches: seq<Branch>, i: nat, j: nat)
    requires |parts| == |branches| && forall i :: 0 <= i < |parts| ==> parts[i].Part?
    requires i < |parts| && j < |parts|
  {
    branches[j].selector.identity == branches[i].selector.identity && (parts[i].hasUnique || parts[j].hasUnique)
  }

  /** prepareOpenAIOutputSchema. */
  function Prepare(source: Keywords): Part<Keywords> {
    var compiled := CompileKeywords(source);
    if compiled.Part? && compiled.hasUnique && compiled.hasReference then Refused else compiled
  }

  // ----- key lists -----

  lemma {:induction false} KeyListMembers(keys: seq<Text>)
    ensures forall key :: key in keys <==> exists f :: f in SortFields(ByCodeUnit, AsFields(keys)) && f.key == key
  {
    var fields := AsFields(keys);
    SortKeepsMembers(ByCodeUnit, fields);
    forall key | key in keys ensures exists f :: f in SortFields(ByCodeUnit, fields) && f.key == key {
      var i :| 0 <= i < |keys| && keys[i] == key;
      assert fields[i] in fields;
    }
  }

  lemma {:induction false} EqualKeyListsHaveEqualMembers(a: seq<Text>, b: seq<Text>)
    requires KeyListText(a) == KeyListText(b)
    ensures forall key :: key in a <==> key in b
  {
    KeysAreIncluded(a, b);
    KeysAreIncluded(b, a);
  }

  lemma {:induction false} KeysAreIncluded(a: seq<Text>, b: seq<Text>)
    requires KeyListText(a) == KeyListText(b)
    ensures forall key :: key in a ==> key in b
  {
    var x, y := SortFields(ByCodeUnit, AsFields(a)), SortFields(ByCodeUnit, AsFields(b));
    StringifyIsInjective(Arr(AsStrings(x)), Arr(AsStrings(y)));
    KeyListMembers(a);
    KeyListMembers(b);
    forall key | key in a ensures key in b {
      var f :| f in x && f.key == key;
      var i :| 0 <= i < |x| && x[i] == f;
      assert AsStrings(x)[i] == AsStrings(y)[i];
      assert y[i] in y;
    }
  }

  lemma {:induction false} EqualMembersHaveEqualKeyLists(a: seq<Text>, b: seq<Text>)
    requires NoRepeats(a) && NoRepeats(b)
    requires forall key :: key in a <==> key in b
    ensures KeyListText(a) == KeyListText(b)
  {
    var x, y := AsFields(a), AsFields(b);
    SortKeepsMembers(ByCodeUnit, x);
    SortKeepsMembers(ByCodeUnit, y);
    SortSorts(ByCodeUnit, x);
    SortSorts(ByCodeUnit, y);
    forall g | g in x ensures g in y {
      var i :| 0 <= i < |x| && x[i] == g;
      assert a[i] in b;
      var j :| 0 <= j < |b| && b[j] == a[i];
      assert y[j] == g;
    }
    forall g | g in y ensures g in x {
      var j :| 0 <= j < |y| && y[j] == g;
      assert b[j] in a;
      var i :| 0 <= i < |a| && a[i] == b[j];
      assert x[i] == g;
    }
    SortedIsUnique(ByCodeUnit, SortFields(ByCodeUnit, x), SortFields(ByCodeUnit, y));
  }

  // ----- key lists as multisets -----

  predicate AllNull(fields: seq<Field>) {
    forall i :: 0 <= i < |fields| ==> fields[i].value == Null
  }

  predicate InKeyOrder(fields: seq<Field>) {
    forall i, j :: 0 <= i < j < |fields| ==> !Less(fields[j].key, fields[i].key)
  }

  lemma {:induction false} InsertAdds(f: Field, fields: seq<Field>)
    ensures multiset(Insert(ByCodeUnit, f, fields)) == multiset(fields) + multiset{f}
  {
    if fields != [] {
      assert fields == [fields[0]] + fields[1..];
      InsertAdds(f, fields[1..]);
    }
  }

  lemma {:induction false} SortPermutes(fields: seq<Field>)
    ensures multiset(SortFields(ByCodeUnit, fields)) == multiset(fields)
  {
    if fields != [] {
      assert fields == [fields[0]] + fields[1..];
      SortPermutes(fields[1..]);
      InsertAdds(fields[0], SortFields(ByCodeUnit, fields[1..]));
    }
  }

  lemma {:induction false} LessGoesOn(a: Text, b: Text, c: Text)
    requires !Less(b, a) && !Less(c, b)
    ensures !Less(c, a)
  {
    LessIsTotal(a, b);
    LessIsTotal(b, c);
    if Less(a, b) && Less(b, c) {
      LessIsTransitive(a, b, c);
      LessIsAsymmetric(a, c);
    }
  }

  lemma {:induction false} InsertInKeyOrder(f: Field, fields: seq<Field>)
    requires InKeyOrder(fields)
    ensures InKeyOrder(Insert(ByCodeUnit, f, fields))
  {
    var r := Insert(ByCodeUnit, f, fields);
    if fields == [] {
    } else if Less(f.key, fields[0].key) {
      LessIsAsymmetric(f.key, fields[0].key);
      forall j | 0 < j < |r| ensures !Less(r[j].key, f.key) {
        assert r[j] == fields[j - 1];
        if j > 1 {
          LessGoesOn(f.key, fields[0].key, fields[j - 1].key);
        }
      }
    } else {
      InsertInKeyOrder(f, fields[1..]);
      InsertKeepsMembers(ByCodeUnit, f, fields[1..]);
      forall j | 0 < j < |r| ensures !Less(r[j].key, fields[0].key) {
        assert r[j] == Insert(ByCodeUnit, f, fields[1..])[j - 1];
        assert r[j] in Insert(ByCodeUnit, f, fields[1..]);
      }
    }
  }

  lemma {:induction false} SortInKeyOrder(fields: seq<Field>)
    ensures InKeyOrder(SortFields(ByCodeUnit, fields))
  {
    if fields != [] {
      SortInKeyOrder(fields[1..]);
      InsertInKeyOrder(fields[0], SortFields(ByCodeUnit, fields[1..]));
    }
  }

  lemma {:induction false} FirstIsLow(a: seq<Field>, f: Field)
    requires InKeyOrder(a) && f in a
    ensures !Less(f.key, a[0].key)
  {
    LessIsTotal(f.key, f.key);
    if Less(f.key, f.key) {
      LessIsAsymmetric(f.key, f.key);
    }
  }

  lemma {:induction false} SameFirst(a: seq<Field>, b: seq<Field>)
    requires a != [] && b != [] && InKeyOrder(a) && InKeyOrder(b) && AllNull(a) && AllNull(b) && multiset(a) == multiset(b)
    ensures a[0] == b[0]
  {
    hide InKeyOrder, Less;
    assert a[0] in multiset(b) && b[0] in multiset(a);
    FirstIsLow(a, b[0]);
    FirstIsLow(b, a[0]);
    LessIsTotal(a[0].key, b[0].key);
  }

  lemma {:induction false} RestOfMultiset(a: seq<Field>)
    requires a != []
    ensures multiset(a[1..]) == multiset(a) - multiset{a[0]}
  {
    assert a == [a[0]] + a[1..];
  }

  lemma {:induction false} OrderedIsUnique(a: seq<Field>, b: seq<Field>)
    requires InKeyOrder(a) && InKeyOrder(b) && AllNull(a) && AllNull(b) && multiset(a) == multiset(b)
    ensures a == b
  {
    hide Less;
    assert |multiset(a)| == |a| && |multiset(b)| == |b|;
    if a != [] {
      SameFirst(a, b);
      RestOfMultiset(a);
      RestOfMultiset(b);
      OrderedIsUnique(a[1..], b[1..]);
      assert a == [a[0]] + a[1..] && b == [b[0]] + b[1..];
    }
  }

  lemma {:induction false} CountOfField(keys: seq<Text>, f: Field)
    ensures multiset(AsFields(keys))[f] == if f.value == Null then multiset(keys)[f.key] else 0
  {
    if keys != [] {
      assert keys == [keys[0]] + keys[1..];
      CountOfField(keys[1..], f);
    }
  }

  lemma {:induction false} FieldsAgreeExactly(a: seq<Text>, b: seq<Text>)
    ensures multiset(AsFields(a)) == multiset(AsFields(b)) <==> multiset(a) == multiset(b)
  {
    hide AsFields;
    forall key ensures multiset(a)[key] == multiset(AsFields(a))[Field(key, Null)] && multiset(b)[key] == multiset(AsFields(b))[Field(key, Null)] {
      CountOfField(a, Field(key, Null));
      CountOfField(b, Field(key, Null));
    }
    if multiset(a) == multiset(b) {
      forall f ensures multiset(AsFields(a))[f] == multiset(AsFields(b))[f] {
        CountOfField(a, f);
        CountOfField(b, f);
      }
    }
  }

  lemma {:induction false} SameStringsSameFields(x: seq<Field>, y: seq<Field>)
    requires AllNull(x) && AllNull(y) && AsStrings(x) == AsStrings(y)
    ensures x == y
  {
    forall i | 0 <= i < |x| ensures x[i] == y[i] {
      assert AsStrings(x)[i] == AsStrings(y)[i];
    }
  }

  /** Sorted key lists print alike exactly when the keys are the same, as often. */
  lemma {:induction false} KeyListsAgreeExactly(a: seq<Text>, b: seq<Text>)
    ensures KeyListText(a) == KeyListText(b) <==> multiset(a) == multiset(b)
  {
    hide SortFields, AsFields, AsStrings, Stringify, InKeyOrder, AllNull;
    var x, y := SortFields(ByCodeUnit, AsFields(a)), SortFields(ByCodeUnit, AsFields(b));
    SortPermutes(AsFields(a));
    SortPermutes(AsFields(b));
    SortedIsNull(a);
    SortedIsNull(b);
    FieldsAgreeExactly(a, b);
    if KeyListText(a) == KeyListText(b) {
      StringifyIsInjective(Arr(AsStrings(x)), Arr(AsStrings(y)));
      SameStringsSameFields(x, y);
    }
    if multiset(a) == multiset(b) {
      SortInKeyOrder(AsFields(a));
      SortInKeyOrder(AsFields(b));
      OrderedIsUnique(x, y);
    }
  }

  lemma {:induction false} SortedIsNull(keys: seq<Text>)
    ensures AllNull(SortFields(ByCodeUnit, AsFields(keys)))
  {
    var x := SortFields(ByCodeUnit, AsFields(keys));
    SortKeepsMembers(ByCodeUnit, AsFields(keys));
    forall i | 0 <= i < |x| ensures x[i].value == Null {
      assert x[i] in AsFields(keys);
    }
  }

  // ----- the uniqueness check -----

  /** Comparing the printed items is exactly `uniqueItems`. */
  lemma {:induction false} UniqueCheckIsExact(v: Json)
    requires v.Arr? && IsValue(v)
    ensures Holds(UniqueCheck, v) <==> ItemsDiffer(v.items)
  {
    SetSize(ItemTexts(v.items));
    forall i, j | 0 <= i < j < |v.items| ensures ItemText(v.items[i]) == ItemText(v.items[j]) <==> Same(v.items[i], v.items[j]) {
      SortedTextIsFaithful(ByEnumeration, v.items[i], v.items[j]);
    }
  }

  // ----- independent descriptions of what the compiler computes -----

  /** The schema with `uniqueItems` deleted at every depth the compiler reaches. */
  function Erase(s: Schema): Schema
    decreases s
  {
    match s
    case BooleanSchema(_) => s
    case Record(k) => Record(EraseKeywords(k))
  }

  function EraseKeywords(k: Keywords): Keywords
    decreases k
  {
    k.(unique := NoUnique,
       properties := EraseDeclared(k.properties),
       items := if k.items.Items? then Items(Erase(k.items.schema)) else NoItems,
       anyOf := if k.anyOf.AnyOf? then AnyOf(EraseBranches(k.anyOf.branches)) else NoUnion,
       defs := EraseDeclared(k.defs))
  }

  function EraseDeclared(properties: Properties): Properties
    decreases properties
  {
    match properties
    case NoProperties => NoProperties
    case Properties(list) => Properties(EraseProperties(list))
  }

  function EraseProperties(list: seq<Property>): (r: seq<Property>)
    ensures |r| == |list|
    ensures forall i :: 0 <= i < |list| ==> r[i].key == list[i].key && r[i] == EraseProperty(list[i])
    decreases list
  {
    if list == [] then []
    else EraseProperties(list[..|list| - 1]) + [EraseProperty(list[|list| - 1])]
  }

  function EraseProperty(p: Property): Property
    decreases p
  {
    Property(p.key, Erase(p.schema))
  }

  function EraseBranches(branches: seq<Schema>): (r: seq<Schema>)
    ensures |r| == |branches| && forall i :: 0 <= i < |branches| ==> r[i] == Erase(branches[i])
    decreases branches
  {
    if branches == [] then []
    else EraseBranches(branches[..|branches| - 1]) + [Erase(branches[|branches| - 1])]
  }

  /** `uniqueItems` occurs somewhere the compiler reaches. */
  predicate MentionsUnique(s: Schema)
    decreases s
  {
    s.Record? && (
      || s.keywords.unique != NoUnique
      || DeclaredMentionUnique(s.keywords.properties)
      || (s.keywords.items.Items? && MentionsUnique(s.keywords.items.schema))
      || (s.keywords.anyOf.AnyOf? && BranchMentionsUnique(s.keywords.anyOf.branches))
      || DeclaredMentionUnique(s.keywords.defs))
  }

  predicate BranchMentionsUnique(branches: seq<Schema>)
    decreases branches
  {
    exists i :: 0 <= i < |branches| && MentionsUnique(branches[i])
  }

  predicate DeclaredMentionUnique(properties: Properties)
    decreases properties
  {
    properties.Properties? && exists i :: 0 <= i < |properties.list| && PropertyMentionsUnique(properties.list[i])
  }

  predicate PropertyMentionsUnique(p: Property)
    decreases p
  {
    MentionsUnique(p.schema)
  }

  lemma {:induction false} ErasedMentionsNoUnique(s: Schema)
    ensures !MentionsUnique(Erase(s))
    decreases s
  {
    match s
    case BooleanSchema(_) =>
    case Record(k) =>
      DeclaredErased(k.properties);
      DeclaredErased(k.defs);
      if k.items.Items? {
        ErasedMentionsNoUnique(k.items.schema);
      }
      if k.anyOf.AnyOf? {
        BranchesErased(k.anyOf.branches);
      }
  }

  lemma {:induction false} BranchesErased(branches: seq<Schema>)
    ensures !BranchMentionsUnique(EraseBranches(branches))
    decreases branches
  {
    forall i | 0 <= i < |branches| ensures !MentionsUnique(EraseBranches(branches)[i]) {
      ErasedMentionsNoUnique(branches[i]);
    }
  }

  lemma {:induction false} DeclaredErased(properties: Properties)
    ensures !DeclaredMentionUnique(EraseDeclared(properties))
    decreases properties
  {
    if properties.Properties? {
      forall i | 0 <= i < |properties.list| ensures !PropertyMentionsUnique(EraseProperties(properties.list)[i]) {
        var p := properties.list[i];
        ErasedMentionsNoUnique(p.schema);
      }
    }
  }

  lemma {:induction false} UnionWireIsErased(union: Union)
    requires CompileUnion(union).Part?
    ensures CompileUnion(union).wire == if union.AnyOf? then AnyOf(EraseBranches(union.branches)) else NoUnion
    decreases union
  {
    hide SelectBranches, Ambiguous, CompileKeywords;
    if union.AnyOf? {
      BranchesCompile(union);
      var branches, parts := union.branches, CompileBranches(union.branches);
      forall i | 0 <= i < |branches| ensures WireBranches(parts)[i] == EraseBranches(branches)[i] {
        var branch := branches[i];
        assert parts[i] == CompileSchema(branch);
        WireIsErased(branch.keywords);
      }
      assert WireBranches(parts) == EraseBranches(branches);
    }
  }

  lemma {:induction false} WireIsErased(k: Keywords)
    requires CompileKeywords(k).Part?
    ensures CompileKeywords(k).wire == EraseKeywords(k)
    decreases k
  {
    hide CompileUnion, SelectBranches, Ambiguous;
    DeclaredWireIsErased(k.properties);
    DeclaredWireIsErased(k.defs);
    if k.items.Items? && k.items.schema.Record? {
      WireIsErased(k.items.schema.keywords);
    }
    UnionWireIsErased(k.anyOf);
  }

  lemma {:induction false} DeclaredWireIsErased(properties: Properties)
    requires CompileDeclared(properties).Part?
    ensures CompileDeclared(properties).wire == EraseDeclared(properties)
    decreases properties
  {
    if properties.Properties? {
      PropertiesWireIsErased(properties.list);
    }
  }

  lemma {:induction false} PropertiesWireIsErased(list: seq<Property>)
    requires CompileProperties(list).Part?
    ensures CompileProperties(list).wire == EraseProperties(list)
    decreases list
  {
    if list != [] {
      var last := list[|list| - 1];
      PropertiesWireIsErased(list[..|list| - 1]);
      WireIsErased(last.schema.keywords);
      assert EraseProperty(last) == Property(last.key, Record(CompileSchema(last.schema).wire));
    }
  }

  lemma {:induction false} BranchesCompile(union: Union)
    requires union.AnyOf? && CompileUnion(union).Part?
    ensures |CompileBranches(union.branches)| == |union.branches|
  {
  }

  lemma {:induction false} AllHoldConcat(a: seq<Check>, b: seq<Check>, v: Json)
    ensures AllHold(a + b, v) <==> AllHold(a, v) && AllHold(b, v)
  {
    if AllHold(a + b, v) {
      assert forall i :: 0 <= i < |a| ==> a[i] == (a + b)[i];
      assert forall i :: 0 <= i < |b| ==> b[i] == (a + b)[|a| + i];
    }
  }

  // ----- selectors -----

  /** Property names are distinct wherever the compiler looks, as in any JavaScript object. */
  predicate IsSchema(s: Schema)
    decreases s
  {
    s.Record? ==>
      && (s.keywords.properties.Properties? ==>
            NoRepeats(PropertyKeys(s.keywords.properties.list)) && PropertiesAreSchemas(s.keywords.properties.list))
      && (s.keywords.items.Items? ==> IsSchema(s.keywords.items.schema))
      && (s.keywords.anyOf.AnyOf? ==> BranchesAreSchemas(s.keywords.anyOf.branches))
  }

  predicate BranchesAreSchemas(branches: seq<Schema>)
    decreases branches
  {
    forall i :: 0 <= i < |branches| ==> IsSchema(branches[i])
  }

  predicate PropertiesAreSchemas(list: seq<Property>)
    decreases list
  {
    forall i :: 0 <= i < |list| ==> PropertyIsSchema(list[i])
  }

  predicate PropertyIsSchema(p: Property)
    decreases p
  {
    IsSchema(p.schema)
  }

  /** A value a branch accepts is matched by the branch's selector, unless the branch's type is a list. */
  lemma {:induction false} SelectorCoversBranch(meaning: Meaning, k: Keywords, v: Json)
    requires UnionSelector(k).Selects? && !k.types.TypeList?
    requires k.properties.Properties? ==> NoRepeats(PropertyKeys(k.properties.list))
    requires IsValue(v) && Accepts(meaning, Record(k), v)
    ensures Matches(UnionSelector(k).selector, v)
  {
    if k.types == OneType(TObject) {
      var declared, required := PropertyKeys(k.properties.list), k.required.keys;
      EqualKeyListsHaveEqualMembers(required, declared);
      var actual := FieldKeys(v.fields);
      forall key | key in actual ensures key in declared {
        var j :| 0 <= j < |v.fields| && v.fields[j].key == key;
        assert Declares(PropertyList(k.properties), v.fields[j].key);
        var i :| 0 <= i < |k.properties.list| && k.properties.list[i].key == key;
        assert declared[i] == key;
      }
      forall key | key in declared ensures key in actual {
        var i :| 0 <= i < |required| && required[i] == key;
        assert HasKey(v.fields, required[i]);
        var j :| 0 <= j < |v.fields| && v.fields[j].key == key;
        assert actual[j] == key;
      }
      EqualMembersHaveEqualKeyLists(actual, declared);
    }
  }

  /** Two selectors that match one value have the same identity. */
  lemma {:induction false} MatchingSelectorsShareIdentity(a: Keywords, b: Keywords, v: Json)
    requires UnionSelector(a).Selects? && UnionSelector(b).Selects?
    requires Matches(UnionSelector(a).selector, v) && Matches(UnionSelector(b).selector, v)
    ensures UnionSelector(a).selector.identity == UnionSelector(b).selector.identity
  {
  }

  // ----- what is refused -----

  /** `uniqueItems: true` occurs somewhere the compiler reaches. */
  predicate RequiresUnique(s: Schema)
    decreases s
  {
    s.Record? && (
      || s.keywords.unique == Unique(true)
      || DeclaredRequireUnique(s.keywords.properties)
      || (s.keywords.items.Items? && RequiresUnique(s.keywords.items.schema))
      || (s.keywords.anyOf.AnyOf? && BranchRequiresUnique(s.keywords.anyOf.branches))
      || DeclaredRequireUnique(s.keywords.defs))
  }

  predicate BranchRequiresUnique(branches: seq<Schema>)
    decreases branches
  {
    exists i :: 0 <= i < |branches| && RequiresUnique(branches[i])
  }

  predicate DeclaredRequireUnique(properties: Properties)
    decreases properties
  {
    properties.Properties? && ListRequiresUnique(properties.list)
  }

  predicate ListRequiresUnique(list: seq<Property>)
    decreases list
  {
    exists i :: 0 <= i < |list| && PropertyRequiresUnique(list[i])
  }

  predicate PropertyRequiresUnique(p: Property)
    decreases p
  {
    RequiresUnique(p.schema)
  }

  /** `$ref` occurs somewhere the compiler reaches. */
  predicate Refers(s: Schema)
    decreases s
  {
    s.Record? && (
      || s.keywords.reference
      || DeclaredRefer(s.keywords.properties)
      || (s.keywords.items.Items? && Refers(s.keywords.items.schema))
      || (s.keywords.anyOf.AnyOf? && BranchRefers(s.keywords.anyOf.branches))
      || DeclaredRefer(s.keywords.defs))
  }

  predicate BranchRefers(branches: seq<Schema>)
    decreases branches
  {
    exists i :: 0 <= i < |branches| && Refers(branches[i])
  }

  predicate DeclaredRefer(properties: Properties)
    decreases properties
  {
    properties.Properties? && ListRefers(properties.list)
  }

  predicate ListRefers(list: seq<Property>)
    decreases list
  {
    exists i :: 0 <= i < |list| && PropertyRefers(list[i])
  }

  predicate PropertyRefers(p: Property)
    decreases p
  {
    Refers(p.schema)
  }

  function DeclaredKeys(k: Keywords): seq<Text> {
    PropertyKeys(PropertyList(k.properties))
  }

  /** A closed object whose required names are exactly its declared names, each once. */
  predicate IsExactObject(k: Keywords) {
    && k.types == OneType(TObject) && k.closed && k.properties.Properties? && k.required.Required?
    && multiset(k.required.keys) == multiset(DeclaredKeys(k))
  }

  /** The branch can be told by its values: an exact object, or a single type other than `object`. */
  predicate IsSelectable(k: Keywords) {
    match k.types
    case NoType => false
    case OneType(name) => name == TObject ==> IsExactObject(k)
    case TypeList(names) => |names| == 1 && names[0] != TObject
  }

  /** The name of a single type; `integer` counts as `number`, unless it stands in a list. */
  function PrintedName(types: TypeKeyword): TypeName
    requires types.OneType? || (types.TypeList? && |types.names| == 1)
  {
    match types
    case OneType(name) => if name == TInteger then TNumber else name
    case TypeList(names) => names[0]
  }

  /** Two selectable branches that one value could belong to: objects with the same names, or the same type. */
  predicate AreOfOneKind(a: Keywords, b: Keywords)
    requires IsSelectable(a) && IsSelectable(b)
  {
    if a.types == OneType(TObject) && b.types == OneType(TObject) then
      multiset(DeclaredKeys(a)) == multiset(DeclaredKeys(b))
    else PrintedName(a.types) == PrintedName(b.types)
  }

  lemma {:induction false} SelectsExactly(k: Keywords)
    ensures UnionSelector(k).Selects? <==> IsSelectable(k)
  {
    hide KeyListText;
    if k.types == OneType(TObject) && k.properties.Properties? && k.required.Required? {
      KeyListsAgreeExactly(k.required.keys, PropertyKeys(k.properties.list));
    }
  }

  lemma {:induction false} TypeTextsDiffer(a: TypeName, b: TypeName)
    ensures TypeText(a) == TypeText(b) <==> a == b
  {
    assert TypeText(a) == TypeText(b) ==> TypeText(a)[0] == TypeText(b)[0] && |TypeText(a)| == |TypeText(b)|;
    assert TypeText(a) == TypeText(b) && |TypeText(a)| == 6 ==> TypeText(a)[1] == TypeText(b)[1];
  }

  lemma {:induction false} ObjectPrefixIsNoName(keyText: Text, name: TypeName)
    ensures keyText != [] ==> OBJECT_PREFIX + keyText != TypeText(name)
  {
  }

  /** Selectors have one identity exactly when the branches are of one kind. */
  lemma {:induction false} SameIdentityExactly(a: Keywords, b: Keywords)
    requires IsSelectable(a) && IsSelectable(b)
    ensures UnionSelector(a).Selects? && UnionSelector(b).Selects?
    ensures UnionSelector(a).selector.identity == UnionSelector(b).selector.identity <==> AreOfOneKind(a, b)
  {
    hide KeyListText, TypeText;
    SelectsExactly(a);
    SelectsExactly(b);
    if a.types == OneType(TObject) && b.types == OneType(TObject) {
      var x, y := PropertyKeys(a.properties.list), PropertyKeys(b.properties.list);
      KeyListsAgreeExactly(x, y);
      assert (OBJECT_PREFIX + KeyListText(x))[|OBJECT_PREFIX|..] == KeyListText(x);
      assert (OBJECT_PREFIX + KeyListText(y))[|OBJECT_PREFIX|..] == KeyListText(y);
    } else if a.types == OneType(TObject) {
      KeyListIsLong(PropertyKeys(a.properties.list));
      ObjectPrefixIsNoName(KeyListText(PropertyKeys(a.properties.list)), PrintedName(b.types));
    } else if b.types == OneType(TObject) {
      KeyListIsLong(PropertyKeys(b.properties.list));
      ObjectPrefixIsNoName(KeyListText(PropertyKeys(b.properties.list)), PrintedName(a.types));
    } else {
      TypeTextsDiffer(PrintedName(a.types), PrintedName(b.types));
    }
  }

  lemma {:induction false} KeyListIsLong(keys: seq<Text>)
    ensures KeyListText(keys) != []
  {
  }

  /** Two branches that cannot be told apart although one of them requires uniqueness. */
  predicate Indistinct(a: Schema, b: Schema) {
    && a.Record?
    && b.Record?
    && IsSelectable(a.keywords)
    && IsSelectable(b.keywords)
    && AreOfOneKind(a.keywords, b.keywords)
    && (RequiresUnique(a) || RequiresUnique(b))
  }

  lemma {:induction false} IndistinctExactly(a: Schema, b: Schema)
    requires a.Record? && b.Record? && UnionSelector(a.keywords).Selects? && UnionSelector(b.keywords).Selects?
    ensures Indistinct(a, b)
       <==> UnionSelector(a.keywords).selector.identity == UnionSelector(b.keywords).selector.identity && (RequiresUnique(a) || RequiresUnique(b))
  {
    hide RequiresUnique, UnionSelector, IsSelectable, AreOfOneKind;
    SelectsExactly(a.keywords);
    SelectsExactly(b.keywords);
    SameIdentityExactly(a.keywords, b.keywords);
  }

  /** The reasons to refuse a schema before it is dispatched. */
  predicate Defective(s: Schema)
    decreases s
  {
    match s
    case BooleanSchema(_) => true
    case Record(k) =>
      || (k.unique != NoUnique && (k.types != OneType(TArray) || k.unique.UniqueMalformed?))
      || (k.properties.Properties? && ListIsDefective(k.properties.list))
      || (k.items.Items? && k.items.schema.Record? && Defective(k.items.schema))
      || (k.anyOf.AnyOf? && UnionIsDefective(k.anyOf.branches))
      || (k.defs.Properties? && ListIsDefective(k.defs.list))
  }

  predicate ListIsDefective(list: seq<Property>)
    decreases list
  {
    exists i :: 0 <= i < |list| && PropertyIsDefective(list[i])
  }

  predicate PropertyIsDefective(p: Property)
    decreases p
  {
    Defective(p.schema)
  }

  predicate UnionIsDefective(branches: seq<Schema>)
    decreases branches, 1
  {
    || BranchIsDefective(branches)
    || (BranchRequiresUnique(branches) && (SomeUnselectable(branches) || SomeIndistinct(branches)))
  }

  predicate BranchIsDefective(branches: seq<Schema>)
    decreases branches, 0
  {
    exists i :: 0 <= i < |branches| && Defective(branches[i])
  }

  predicate SomeUnselectable(branches: seq<Schema>) {
    exists i :: 0 <= i < |branches| && IsUnselectable(branches[i])
  }

  predicate IsUnselectable(s: Schema) {
    s.Record? && !IsSelectable(s.keywords)
  }

  predicate SomeIndistinct(branches: seq<Schema>) {
    exists i, j :: 0 <= i < |branches| && 0 <= j < |branches| && i != j && Indistinct(branches[i], branches[j])
  }

  ghost predicate PartDescribes(s: Schema) {
    var part := CompileSchema(s);
    && (part.Refused? <==> Defective(s))
    && (part.Part? ==> part.hasUnique == RequiresUnique(s) && part.hasReference == Refers(s))
  }

  lemma {:induction false} CompileSchemaIsExact(s: Schema)
    ensures PartDescribes(s)
    decreases s, 1
  {
    match s
    case BooleanSchema(_) =>
    case Record(k) =>
      CompileDeclaredIsExact(k.properties);
      CompileDeclaredIsExact(k.defs);
      CompileItemsIsExact(k.items);
      if k.anyOf.AnyOf? {
        CompileUnionIsExact(k.anyOf);
      }
      assert CompileSchema(s) == CompileKeywords(k);
      assert CompileUnion(k.anyOf).Refused? <==> k.anyOf.AnyOf? && UnionIsDefective(k.anyOf.branches);
  }

  lemma {:induction false} CompileDeclaredIsExact(properties: Properties)
    ensures var part := CompileDeclared(properties);
            && (part.Refused? <==> properties.Properties? && ListIsDefective(properties.list))
            && (part.Part? ==> part.hasUnique == DeclaredRequireUnique(properties) && part.hasReference == DeclaredRefer(properties))
    decreases properties, 1
  {
    if properties.Properties? {
      CompilePropertiesIsExact(properties.list);
    }
  }

  lemma {:induction false} CompileItemsIsExact(items: Items)
    ensures var part := CompileItems(items);
            && (part.Refused? <==> items.Items? && items.schema.Record? && Defective(items.schema))
            && (part.Part? ==>
                 && part.hasUnique == (items.Items? && RequiresUnique(items.schema))
                 && part.hasReference == (items.Items? && Refers(items.schema)))
    decreases items, 1
  {
    if items.Items? {
      CompileSchemaIsExact(items.schema);
    }
  }

  lemma {:induction false} CompilePropertiesIsExact(list: seq<Property>)
    ensures var part := CompileProperties(list);
            && (part.Refused? <==> ListIsDefective(list))
            && (part.Part? ==> part.hasUnique == ListRequiresUnique(list) && part.hasReference == ListRefers(list))
    decreases list
  {
    if list != [] {
      var front, last := list[..|list| - 1], list[|list| - 1];
      CompilePropertiesIsExact(front);
      CompileSchemaIsExact(last.schema);
      assert list == front + [last];
      SplitLast(front, last, PropertyIsDefective);
      SplitLast(front, last, PropertyRequiresUnique);
      SplitLast(front, last, PropertyRefers);
    }
  }

  ghost predicate Some<T>(list: seq<T>, p: T -> bool) {
    exists i :: 0 <= i < |list| && p(list[i])
  }

  lemma {:induction false} SplitLast<T>(front: seq<T>, last: T, p: T -> bool)
    ensures Some(front + [last], p) <==> Some(front, p) || p(last)
  {
    var list := front + [last];
    assert list[|front|] == last;
    if Some(front, p) {
      var i :| 0 <= i < |front| && p(front[i]);
      assert p(list[i]);
    }
  }

  lemma {:induction false} CompileBranchesIsExact(branches: seq<Schema>)
    ensures branches != [] && CompileBranches(branches) == [] <==> BranchIsDefective(branches)
    ensures forall i :: 0 <= i < |branches| ==> PartDescribes(branches[i])
    decreases branches, 0
  {
    if branches != [] {
      var front, last := branches[..|branches| - 1], branches[|branches| - 1];
      CompileBranchesIsExact(front);
      CompileSchemaIsExact(last);
      assert branches == front + [last];
      SplitLast(front, last, Defective);
      forall i | 0 <= i < |branches| ensures PartDescribes(branches[i]) {
        if i < |front| {
          assert branches[i] == front[i];
        }
      }
    }
  }

  lemma {:induction false} SelectorOfErased(k: Keywords)
    ensures UnionSelector(EraseKeywords(k)) == UnionSelector(k)
  {
    if k.properties.Properties? {
      assert EraseDeclared(k.properties) == Properties(EraseProperties(k.properties.list));
      assert PropertyKeys(EraseProperties(k.properties.list)) == PropertyKeys(k.properties.list);
    }
  }

  lemma {:induction false} CompileUnionIsExact(union: Union)
    requires union.AnyOf?
    ensures var part := CompileUnion(union);
            && (part.Refused? <==> UnionIsDefective(union.branches))
            && (part.Part? ==>
                 part.hasUnique == BranchRequiresUnique(union.branches) && part.hasReference == BranchRefers(union.branches))
    decreases union
  {
    var branches := union.branches;
    var parts := CompileBranches(branches);
    CompileBranchesIsExact(branches);
    if !BranchIsDefective(branches) {
      forall i | 0 <= i < |branches|
        ensures branches[i].Record? && UnionSelector(parts[i].wire) == UnionSelector(branches[i].keywords)
        ensures parts[i].hasUnique == RequiresUnique(branches[i]) && parts[i].hasReference == Refers(branches[i])
      {
        assert PartDescribes(branches[i]) && parts[i] == CompileSchema(branches[i]);
        WireIsErased(branches[i].keywords);
        SelectorOfErased(branches[i].keywords);
      }
      SameUnionFlags(branches, parts);
      if SomeUnique(parts) && !SomeUnselectable(branches) {
        SameAmbiguity(branches, parts);
      }
    }
  }

  lemma {:induction false} SameUnionFlags(branches: seq<Schema>, parts: seq<Part<Keywords>>)
    requires |parts| == |branches|
    requires forall i :: 0 <= i < |parts| ==> parts[i].Part? && branches[i].Record?
    requires forall i :: 0 <= i < |parts| ==> UnionSelector(parts[i].wire) == UnionSelector(branches[i].keywords)
    requires forall i :: 0 <= i < |parts| ==>
               parts[i].hasUnique == RequiresUnique(branches[i]) && parts[i].hasReference == Refers(branches[i])
    ensures SomeUnique(parts) <==> BranchRequiresUnique(branches)
    ensures SomeReference(parts) <==> BranchRefers(branches)
    ensures |SelectBranches(parts)| != |parts| <==> SomeUnselectable(branches)
  {
    hide UnionSelector, IsSelectable;
    if |SelectBranches(parts)| != |parts| {
      var i :| 0 <= i < |parts| && UnionSelector(parts[i].wire).NoSelector?;
      SelectsExactly(branches[i].keywords);
      assert IsUnselectable(branches[i]);
    }
    if SomeUnselectable(branches) {
      var i :| 0 <= i < |branches| && IsUnselectable(branches[i]);
      SelectsExactly(branches[i].keywords);
      assert UnionSelector(parts[i].wire).NoSelector?;
    }
    assert forall i :: 0 <= i < |parts| && parts[i].hasUnique ==> RequiresUnique(branches[i]);
    assert forall i :: 0 <= i < |parts| && parts[i].hasReference ==> Refers(branches[i]);
  }

  lemma {:induction false} SameAmbiguity(branches: seq<Schema>, parts: seq<Part<Keywords>>)
    requires |parts| == |branches|
    requires forall i :: 0 <= i < |parts| ==> parts[i].Part? && branches[i].Record?
    requires |SelectBranches(parts)| == |parts|
    requires forall i :: 0 <= i < |parts| ==> UnionSelector(parts[i].wire) == UnionSelector(branches[i].keywords)
    requires forall i :: 0 <= i < |parts| ==> parts[i].hasUnique == RequiresUnique(branches[i])
    ensures Ambiguous(parts, SelectBranches(parts)) <==> SomeIndistinct(branches)
  {
    hide RequiresUnique, UnionSelector, Indistinct;
    var selected := SelectBranches(parts);
    forall i, j | 0 <= i < |parts| && 0 <= j < |parts| ensures Clash(parts, selected, i, j) <==> Indistinct(branches[i], branches[j]) {
      var a, b := branches[i], branches[j];
      assert UnionSelector(a.keywords) == Selects(selected[i].selector);
      assert UnionSelector(b.keywords) == Selects(selected[j].selector);
      IndistinctExactly(a, b);
    }
    if Ambiguous(parts, selected) {
      var i, j :| 0 <= i < |parts| && 0 <= j < |parts| && i != j && Clash(parts, selected, i, j);
      assert Indistinct(branches[i], branches[j]);
    }
    if SomeIndistinct(branches) {
      var i, j :| 0 <= i < |branches| && 0 <= j < |branches| && i != j && Indistinct(branches[i], branches[j]);
      assert Clash(parts, selected, i, j);
    }
  }

  /** Preparation refuses exactly the defective schemas and those that combine uniqueness with references. */
  lemma {:induction false} PrepareRefusesExactly(source: Keywords)
    ensures Prepare(source).Refused?
       <==> Defective(Record(source)) || (RequiresUnique(Record(source)) && Refers(Record(source)))
  {
    CompileSchemaIsExact(Record(source));
    assert CompileSchema(Record(source)) == CompileKeywords(source);
  }

  /** Closed payloads with different names, one union of them: each is prepared, so the union is. */
  lemma {:induction false} PayloadsArePrepared(branches: seq<Schema>)
    requires forall i :: 0 <= i < |branches| ==> branches[i].Record? && IsExactObject(branches[i].keywords) && !Defective(branches[i])
    requires forall i, j :: 0 <= i < j < |branches| ==>
               multiset(DeclaredKeys(branches[i].keywords)) != multiset(DeclaredKeys(branches[j].keywords))
    ensures CompileUnion(AnyOf(branches)).Part?
  {
    CompileUnionIsExact(AnyOf(branches));
  }

  lemma {:induction false} PairIsPrepared(a: Schema, b: Schema)
    requires a.Record? && b.Record? && IsSelectable(a.keywords) && IsSelectable(b.keywords) && !Defective(a) && !Defective(b)
    requires !AreOfOneKind(a.keywords, b.keywords) && !AreOfOneKind(b.keywords, a.keywords)
    ensures CompileUnion(AnyOf([a, b])).Part?
  {
    hide RequiresUnique, AreOfOneKind, CompileUnion, Refers;
    CompileUnionIsExact(AnyOf([a, b]));
    var branches := [a, b];
    assert forall i :: 0 <= i < |branches| ==> branches[i] == a || branches[i] == b;
    forall i, j | 0 <= i < |branches| && 0 <= j < |branches| && i != j ensures !Indistinct(branches[i], branches[j]) {
      assert (branches[i] == a && branches[j] == b) || (branches[i] == b && branches[j] == a);
    }
    assert !BranchIsDefective(branches) && !SomeUnselectable(branches) && !SomeIndistinct(branches);
  }

  /** A nullable schema of any other single type is prepared. */
  lemma {:induction false} NullableIsPrepared(k: Keywords, nothing: Keywords)
    requires IsSelectable(k) && k.types.OneType? && k.types != OneType(TNull) && !Defective(Record(k))
    requires nothing.types == OneType(TNull) && !Defective(Record(nothing))
    ensures CompileUnion(AnyOf([Record(k), Record(nothing)])).Part?
    ensures CompileUnion(AnyOf([Record(nothing), Record(k)])).Part?
  {
    hide Defective, CompileUnion;
    PairIsPrepared(Record(k), Record(nothing));
    PairIsPrepared(Record(nothing), Record(k));
  }

  // ----- what the compiled checks let through -----

  /** The branch names a single type, and the value is of it: for an object type, it has exactly the declared properties. */
  predicate IsOfKind(k: Keywords, v: Json) {
    match k.types
    case OneType(name) => if name == TObject then v.Obj? && HasExactly(PropertyList(k.properties), v.fields) else IsOfType(name, v)
    case _ => false
  }

  predicate HasExactly(properties: seq<Property>, fields: seq<Field>) {
    && (forall j :: 0 <= j < |fields| ==> Declares(properties, fields[j].key))
    && (forall i :: 0 <= i < |properties| ==> HasKey(fields, properties[i].key))
  }

  /**
   The value is kept: wherever the compiler reaches, required uniqueness holds, and in
   every union with uniqueness some branch that names the value's kind alone keeps it.
   */
  ghost predicate IsKept(s: Schema, v: Json)
    decreases s, 0
  {
    s.Record? ==>
      && (s.keywords.unique == Unique(true) && v.Arr? ==> ItemsDiffer(v.items))
      && (s.keywords.properties.Properties? ==> ListKeeps(s.keywords.properties.list, v))
      && ItemsKeep(s.keywords.items, v)
      && (s.keywords.anyOf.AnyOf? && BranchRequiresUnique(s.keywords.anyOf.branches) ==> BranchKeeps(s.keywords.anyOf.branches, v))
  }

  ghost predicate ItemsKeep(items: Items, v: Json)
    decreases items, 0
  {
    items.Items? && v.Arr? ==> forall i :: 0 <= i < |v.items| ==> IsKept(items.schema, v.items[i])
  }

  ghost predicate BranchKeeps(branches: seq<Schema>, v: Json)
    decreases branches, 0
  {
    exists i :: 0 <= i < |branches| && Keeps(branches[i], v)
  }

  ghost predicate Keeps(branch: Schema, v: Json)
    decreases branch, 1
  {
    branch.Record? && IsOfKind(branch.keywords, v) && IsKept(branch, v)
  }

  ghost predicate ListKeeps(list: seq<Property>, v: Json)
    decreases list, 0
  {
    forall i :: 0 <= i < |list| ==> PropertyKeeps(list[i], v)
  }

  ghost predicate PropertyKeeps(p: Property, v: Json)
    decreases p, 0
  {
    v.Obj? ==> forall j :: 0 <= j < |v.fields| && v.fields[j].key == p.key ==> IsKept(p.schema, v.fields[j].value)
  }

  lemma {:induction false} SelectorIsKind(k: Keywords, v: Json)
    requires UnionSelector(k).Selects? && IsValue(v)
    requires k.properties.Properties? ==> NoRepeats(PropertyKeys(k.properties.list))
    ensures Matches(UnionSelector(k).selector, v) <==> IsOfKind(k, v)
  {
    if k.types == OneType(TObject) && v.Obj? {
      KeysAreDeclared(k.properties.list, v.fields);
    }
  }

  lemma {:induction false} KeysAreDeclared(list: seq<Property>, fields: seq<Field>)
    requires NoRepeats(PropertyKeys(list)) && DistinctKeys(fields)
    ensures KeyListText(FieldKeys(fields)) == KeyListText(PropertyKeys(list)) <==> HasExactly(list, fields)
  {
    var actual, declared := FieldKeys(fields), PropertyKeys(list);
    if KeyListText(actual) == KeyListText(declared) {
      EqualKeyListsHaveEqualMembers(actual, declared);
      forall j | 0 <= j < |fields| ensures Declares(list, fields[j].key) {
        assert actual[j] in declared;
      }
      forall i | 0 <= i < |list| ensures HasKey(fields, list[i].key) {
        assert declared[i] in actual;
      }
    }
    if HasExactly(list, fields) {
      SameMembers(list, fields);
      EqualMembersHaveEqualKeyLists(actual, declared);
    }
  }

  lemma {:induction false} SameMembers(list: seq<Property>, fields: seq<Field>)
    requires HasExactly(list, fields)
    ensures forall key :: key in FieldKeys(fields) <==> key in PropertyKeys(list)
  {
    var actual, declared := FieldKeys(fields), PropertyKeys(list);
    forall key | key in actual ensures key in declared {
      var j :| 0 <= j < |fields| && fields[j].key == key;
      assert Declares(list, fields[j].key);
      var i :| 0 <= i < |list| && list[i].key == key;
      assert declared[i] == key;
    }
    forall key | key in declared ensures key in actual {
      var i :| 0 <= i < |list| && list[i].key == key;
      assert HasKey(fields, list[i].key);
      var j :| 0 <= j < |fields| && fields[j].key == key;
      assert actual[j] == key;
    }
  }

  function OwnChecks(k: Keywords): seq<Check> {
    if k.unique == Unique(true) then [UniqueCheck] else []
  }

  lemma {:induction false} ChecksSplit(k: Keywords, v: Json)
    requires CompileKeywords(k).Part?
    ensures AllHold(CompileKeywords(k).checks, v)
       <==> && AllHold(OwnChecks(k), v) && AllHold(CompileDeclared(k.properties).checks, v)
            && AllHold(CompileItems(k.items).checks, v) && AllHold(CompileUnion(k.anyOf).checks, v)
  {
    var own, properties, items, union :=
      OwnChecks(k), CompileDeclared(k.properties).checks, CompileItems(k.items).checks, CompileUnion(k.anyOf).checks;
    assert CompileKeywords(k).checks == own + properties + items + union;
    AllHoldConcat(own + properties + items, union, v);
    AllHoldConcat(own + properties, items, v);
    AllHoldConcat(own, properties, v);
  }

  lemma {:induction false} OwnCheckIsExact(k: Keywords, v: Json)
    requires IsValue(v)
    ensures AllHold(OwnChecks(k), v) <==> (k.unique == Unique(true) && v.Arr? ==> ItemsDiffer(v.items))
  {
    if k.unique == Unique(true) {
      OneCheck(UniqueCheck, v);
      if v.Arr? {
        UniqueCheckIsExact(v);
      }
    }
  }

  lemma {:induction false} OneCheck(check: Check, v: Json)
    ensures AllHold([check], v) <==> Holds(check, v)
  {
    assert [check][0] == check;
  }

  lemma {:induction false} SameDeclarations(properties: Properties)
    ensures forall key :: Declares(PropertyList(EraseDeclared(properties)), key) <==> Declares(PropertyList(properties), key)
  {
    if properties.Properties? {
      var list, erased := properties.list, EraseProperties(properties.list);
      forall key | Declares(list, key) ensures Declares(erased, key) {
        var i :| 0 <= i < |list| && list[i].key == key;
        assert erased[i].key == key;
      }
      forall key | Declares(erased, key) ensures Declares(list, key) {
        var i :| 0 <= i < |erased| && erased[i].key == key;
        assert list[i].key == key;
      }
    }
  }

  /** The compiled checks hold exactly of the values that are kept. */
  lemma {:induction false} ChecksHoldExactly(k: Keywords, v: Json)
    requires CompileKeywords(k).Part? && IsSchema(Record(k)) && IsValue(v)
    ensures AllHold(CompileKeywords(k).checks, v) <==> IsKept(Record(k), v)
    decreases k, 1
  {
    ChecksSplit(k, v);
    OwnCheckIsExact(k, v);
    if k.properties.Properties? {
      PropertyChecksHoldExactly(k.properties.list, v);
    }
    ItemChecksHoldExactly(k.items, v);
    if k.anyOf.AnyOf? {
      UnionChecksHoldExactly(k.anyOf, v);
    }
  }

  lemma {:induction false} PropertyChecksHoldExactly(list: seq<Property>, v: Json)
    requires CompileProperties(list).Part? && PropertiesAreSchemas(list) && IsValue(v)
    ensures AllHold(CompileProperties(list).checks, v) <==> ListKeeps(list, v)
    decreases list, 0
  {
    if list != [] {
      var front, last := list[..|list| - 1], list[|list| - 1];
      var check := PropertyCheck(last.key, CompileSchema(last.schema).checks);
      PropertyChecksHoldExactly(front, v);
      assert PropertyIsSchema(last);
      PropertyCheckHoldsExactly(last, v);
      AllHoldConcat(CompileProperties(front).checks, [check], v);
      OneCheck(check, v);
      assert list == front + [last];
      ListKeepsConcat(front, last, v);
    }
  }

  lemma {:induction false} PropertyCheckHoldsExactly(p: Property, v: Json)
    requires CompileSchema(p.schema).Part? && PropertyIsSchema(p) && IsValue(v)
    ensures Holds(PropertyCheck(p.key, CompileSchema(p.schema).checks), v) <==> PropertyKeeps(p, v)
    decreases p, 0
  {
    if v.Obj? {
      forall j | 0 <= j < |v.fields| ensures AllHold(CompileSchema(p.schema).checks, v.fields[j].value) <==> IsKept(p.schema, v.fields[j].value) {
        ChecksHoldExactly(p.schema.keywords, v.fields[j].value);
      }
    }
  }

  lemma {:induction false} ListKeepsConcat(front: seq<Property>, last: Property, v: Json)
    ensures ListKeeps(front + [last], v) <==> ListKeeps(front, v) && PropertyKeeps(last, v)
  {
    var list := front + [last];
    if ListKeeps(list, v) {
      assert list[|front|] == last;
      assert forall i :: 0 <= i < |front| ==> front[i] == list[i];
    }
  }

  lemma {:induction false} ItemChecksHoldExactly(items: Items, v: Json)
    requires CompileItems(items).Part? && IsValue(v)
    requires items.Items? ==> IsSchema(items.schema)
    ensures AllHold(CompileItems(items).checks, v) <==> ItemsKeep(items, v)
    decreases items, 0
  {
    if items.Items? && items.schema.Record? {
      var checks := CompileKeywords(items.schema.keywords).checks;
      OneCheck(ItemsCheck(checks), v);
      if v.Arr? {
        forall i | 0 <= i < |v.items| ensures AllHold(checks, v.items[i]) <==> IsKept(items.schema, v.items[i]) {
          ChecksHoldExactly(items.schema.keywords, v.items[i]);
        }
      }
    }
  }

  lemma {:induction false} SelectedAreKept(branches: seq<Schema>, selected: seq<Branch>, v: Json)
    requires |branches| == |selected|
    requires forall i :: 0 <= i < |branches| ==> (IsSelected(selected[i], v) <==> Keeps(branches[i], v))
    ensures SomeSelected(selected, v) <==> BranchKeeps(branches, v)
  {
  }

  lemma {:induction false} UnionChecksHoldExactly(union: Union, v: Json)
    requires union.AnyOf? && CompileUnion(union).Part? && BranchesAreSchemas(union.branches) && IsValue(v)
    ensures AllHold(CompileUnion(union).checks, v) <==> (BranchRequiresUnique(union.branches) ==> BranchKeeps(union.branches, v))
    decreases union, 0
  {
    hide CompileUnion, CompileBranches, SelectBranches, UnionSelector, RequiresUnique, IsSelected, Keeps,
         SomeSelected, BranchKeeps, BranchRequiresUnique;
    var branches, parts := union.branches, CompileBranches(union.branches);
    UnionPartIsExact(union);
    if BranchRequiresUnique(branches) {
      var selected := SelectBranches(parts);
      forall i | 0 <= i < |branches| ensures IsSelected(selected[i], v) <==> Keeps(branches[i], v) {
        BranchIsSelectedExactly(branches[i], selected[i], v);
      }
      SelectedAreKept(branches, selected, v);
      OneCheck(UnionCheck(selected), v);
    }
  }

  /** What a union compiles to. */
  lemma {:induction false} UnionPartIsExact(union: Union)
    requires union.AnyOf? && CompileUnion(union).Part?
    ensures |CompileBranches(union.branches)| == |union.branches|
    ensures forall i :: 0 <= i < |union.branches| ==> CompileBranches(union.branches)[i] == CompileSchema(union.branches[i])
    ensures var branches, parts := union.branches, CompileBranches(union.branches);
      if BranchRequiresUnique(branches) then
        && |SelectBranches(parts)| == |branches| && CompileUnion(union).checks == [UnionCheck(SelectBranches(parts))]
        && forall i :: 0 <= i < |branches| ==>
             && CompileSchema(branches[i]).Part?
             && UnionSelector(CompileSchema(branches[i]).wire) == Selects(SelectBranches(parts)[i].selector)
             && SelectBranches(parts)[i].checks == CompileSchema(branches[i]).checks
      else CompileUnion(union).checks == []
  {
    BranchesCompile(union);
    CompileUnionIsExact(union);
  }

  lemma {:induction false} BranchIsSelectedExactly(branch: Schema, selected: Branch, v: Json)
    requires CompileSchema(branch).Part? && IsSchema(branch) && IsValue(v)
    requires UnionSelector(CompileSchema(branch).wire) == Selects(selected.selector) && selected.checks == CompileSchema(branch).checks
    ensures IsSelected(selected, v) <==> Keeps(branch, v)
    decreases branch, 0
  {
    ChecksHoldExactly(branch.keywords, v);
    WireIsErased(branch.keywords);
    SelectorOfErased(branch.keywords);
    SelectorIsKind(branch.keywords, v);
  }

  // ----- taking uniqueness out of a schema -----

  lemma {:induction false} AcceptsInParts(meaning: Meaning, k: Keywords, v: Json)
    ensures Accepts(meaning, Record(k), v)
       <==> && TypesAccept(k.types, v) && (k.unique == Unique(true) && v.Arr? ==> ItemsDiffer(v.items))
            && (k.properties.Properties? ==> ListAccepts(meaning, k.properties.list, v))
            && RequiredAccepts(k.required, v) && ClosedAccepts(k, v) && ItemsAccept(meaning, k.items, v)
            && (k.anyOf.AnyOf? ==> BranchAccepts(meaning, k.anyOf.branches, v)) && meaning(k.rest, v)
  {
    assert PropertiesAccept(meaning, k.properties, v) <==> (k.properties.Properties? ==> ListAccepts(meaning, k.properties.list, v));
    assert UnionAccepts(meaning, k.anyOf, v) <==> (k.anyOf.AnyOf? ==> BranchAccepts(meaning, k.anyOf.branches, v));
  }

  function EraseItems(items: Items): Items {
    if items.Items? then Items(Erase(items.schema)) else NoItems
  }

  lemma {:induction false} ErasedAcceptsInParts(meaning: Meaning, k: Keywords, v: Json)
    ensures Accepts(meaning, Erase(Record(k)), v)
       <==> && TypesAccept(k.types, v)
            && (k.properties.Properties? ==> ListAccepts(meaning, EraseProperties(k.properties.list), v))
            && RequiredAccepts(k.required, v) && ClosedAccepts(k, v) && ItemsAccept(meaning, EraseItems(k.items), v)
            && (k.anyOf.AnyOf? ==> BranchAccepts(meaning, EraseBranches(k.anyOf.branches), v)) && meaning(k.rest, v)
  {
    var erased := EraseKeywords(k);
    assert Erase(Record(k)) == Record(erased);
    if k.items.Items? {
      assert erased.items == Items(Erase(k.items.schema));
    }
    assert erased.properties == EraseDeclared(k.properties);
    assert k.properties.Properties? ==> EraseDeclared(k.properties) == Properties(EraseProperties(k.properties.list));
    assert k.anyOf.AnyOf? ==> erased.anyOf == AnyOf(EraseBranches(k.anyOf.branches));
    SameDeclarations(k.properties);
    assert ClosedAccepts(erased, v) <==> ClosedAccepts(k, v);
    AcceptsInParts(meaning, erased, v);
  }

  /** The wire schema accepts whatever the source accepts. */
  lemma {:induction false} ErasingWeakens(meaning: Meaning, s: Schema, v: Json)
    requires Accepts(meaning, s, v)
    ensures Accepts(meaning, Erase(s), v)
    decreases s, 1
  {
    if s.Record? {
      var k := s.keywords;
      AcceptsInParts(meaning, k, v);
      ErasedAcceptsInParts(meaning, k, v);
      if k.properties.Properties? {
        forall i | 0 <= i < |k.properties.list| ensures PropertyAccepts(meaning, EraseProperties(k.properties.list)[i], v) {
          ErasingWeakensProperty(meaning, k.properties.list[i], v);
        }
      }
      if k.items.Items? && v.Arr? {
        forall i | 0 <= i < |v.items| ensures Accepts(meaning, Erase(k.items.schema), v.items[i]) {
          ErasingWeakens(meaning, k.items.schema, v.items[i]);
        }
      }
      if k.anyOf.AnyOf? {
        var i :| 0 <= i < |k.anyOf.branches| && Accepts(meaning, k.anyOf.branches[i], v);
        ErasingWeakens(meaning, k.anyOf.branches[i], v);
        assert Accepts(meaning, EraseBranches(k.anyOf.branches)[i], v);
      }
    }
  }

  lemma {:induction false} ErasingWeakensProperty(meaning: Meaning, p: Property, v: Json)
    requires PropertyAccepts(meaning, p, v)
    ensures PropertyAccepts(meaning, EraseProperty(p), v)
    decreases p, 0
  {
    if v.Obj? {
      forall j | 0 <= j < |v.fields| && v.fields[j].key == p.key ensures Accepts(meaning, Erase(p.schema), v.fields[j].value) {
        ErasingWeakens(meaning, p.schema, v.fields[j].value);
      }
    }
  }

  predicate IsScalar(v: Json) {
    !v.Arr? && !v.Obj?
  }

  /** Uniqueness says nothing of a value that is no array or object. */
  lemma {:induction false} ScalarsIgnoreUnique(meaning: Meaning, s: Schema, v: Json)
    requires IsScalar(v) && Accepts(meaning, Erase(s), v)
    ensures Accepts(meaning, s, v)
    decreases s
  {
    if s.Record? {
      var k := s.keywords;
      AcceptsInParts(meaning, k, v);
      ErasedAcceptsInParts(meaning, k, v);
      if k.properties.Properties? {
        assert forall i :: 0 <= i < |k.properties.list| ==> PropertyAccepts(meaning, k.properties.list[i], v);
      }
      if k.anyOf.AnyOf? {
        var erased := EraseBranches(k.anyOf.branches);
        var i :| 0 <= i < |erased| && Accepts(meaning, erased[i], v);
        ScalarsIgnoreUnique(meaning, k.anyOf.branches[i], v);
      }
    }
  }

  lemma {:induction false} PlainParts(k: Keywords)
    requires !RequiresUnique(Record(k))
    ensures k.unique != Unique(true)
    ensures k.properties.Properties? ==> forall i :: 0 <= i < |k.properties.list| ==> !PropertyRequiresUnique(k.properties.list[i])
    ensures k.items.Items? ==> !RequiresUnique(k.items.schema)
    ensures k.anyOf.AnyOf? ==> !BranchRequiresUnique(k.anyOf.branches)
  {
    if k.properties.Properties? {
      assert !DeclaredRequireUnique(k.properties);
      assert !ListRequiresUnique(k.properties.list);
    }
  }

  /** A schema that requires no uniqueness means the same without it. */
  lemma {:induction false} PlainMeansTheSame(meaning: Meaning, s: Schema, v: Json)
    requires !RequiresUnique(s) && Accepts(meaning, Erase(s), v)
    ensures Accepts(meaning, s, v)
    decreases s, 1
  {
    if s.Record? {
      var k := s.keywords;
      PlainParts(k);
      AcceptsInParts(meaning, k, v);
      ErasedAcceptsInParts(meaning, k, v);
      if k.properties.Properties? {
        forall i | 0 <= i < |k.properties.list| ensures PropertyAccepts(meaning, k.properties.list[i], v) {
          assert PropertyAccepts(meaning, EraseProperties(k.properties.list)[i], v);
          PlainPropertyMeansTheSame(meaning, k.properties.list[i], v);
        }
      }
      if k.items.Items? && v.Arr? {
        forall i | 0 <= i < |v.items| ensures Accepts(meaning, k.items.schema, v.items[i]) {
          assert Accepts(meaning, EraseItems(k.items).schema, v.items[i]);
          PlainMeansTheSame(meaning, k.items.schema, v.items[i]);
        }
      }
      if k.anyOf.AnyOf? {
        PlainUnionMeansTheSame(meaning, k.anyOf.branches, v);
      }
    }
  }

  lemma {:induction false} PlainPropertyMeansTheSame(meaning: Meaning, p: Property, v: Json)
    requires !PropertyRequiresUnique(p) && PropertyAccepts(meaning, EraseProperty(p), v)
    ensures PropertyAccepts(meaning, p, v)
    decreases p, 0
  {
    if v.Obj? {
      forall j | 0 <= j < |v.fields| && v.fields[j].key == p.key ensures Accepts(meaning, p.schema, v.fields[j].value) {
        PlainMeansTheSame(meaning, p.schema, v.fields[j].value);
      }
    }
  }

  lemma {:induction false} PlainUnionMeansTheSame(meaning: Meaning, branches: seq<Schema>, v: Json)
    requires !BranchRequiresUnique(branches) && BranchAccepts(meaning, EraseBranches(branches), v)
    ensures BranchAccepts(meaning, branches, v)
    decreases branches, 0
  {
    var erased := EraseBranches(branches);
    var i :| 0 <= i < |erased| && Accepts(meaning, erased[i], v);
    assert !RequiresUnique(branches[i]);
    PlainMeansTheSame(meaning, branches[i], v);
  }

  /** A schema that requires no uniqueness keeps every value. */
  lemma {:induction false} PlainKeepsAll(s: Schema, v: Json)
    requires !RequiresUnique(s)
    ensures IsKept(s, v)
    decreases s, 1
  {
    if s.Record? {
      var k := s.keywords;
      PlainParts(k);
      if k.properties.Properties? {
        forall i | 0 <= i < |k.properties.list| ensures PropertyKeeps(k.properties.list[i], v) {
          PlainPropertyKeepsAll(k.properties.list[i], v);
        }
      }
      if k.items.Items? && v.Arr? {
        forall i | 0 <= i < |v.items| ensures IsKept(k.items.schema, v.items[i]) {
          PlainKeepsAll(k.items.schema, v.items[i]);
        }
      }
    }
  }

  lemma {:induction false} PlainPropertyKeepsAll(p: Property, v: Json)
    requires !PropertyRequiresUnique(p)
    ensures PropertyKeeps(p, v)
    decreases p, 0
  {
    if v.Obj? {
      forall j | 0 <= j < |v.fields| ensures IsKept(p.schema, v.fields[j].value) {
        PlainKeepsAll(p.schema, v.fields[j].value);
      }
    }
  }

  /** What the preparation has checked of a union with uniqueness. */
  predicate IsTellable(branches: seq<Schema>) {
    && (forall i :: 0 <= i < |branches| ==> branches[i].Record? && UnionSelector(branches[i].keywords).Selects?)
    && !SomeIndistinct(branches)
  }

  /** A value that a single-typed branch accepts is of the branch's kind. */
  lemma {:induction false} AcceptedIsOfKind(meaning: Meaning, s: Schema, v: Json)
    requires IsSchema(s) && s.Record? && UnionSelector(s.keywords).Selects? && !s.keywords.types.TypeList?
    requires IsValue(v) && Accepts(meaning, Erase(s), v)
    ensures IsOfKind(s.keywords, v)
  {
    var k := s.keywords;
    ErasedIsSchema(s);
    SelectorOfErased(k);
    SelectorCoversBranch(meaning, EraseKeywords(k), v);
    SelectorIsKind(k, v);
  }

  lemma {:induction false} ListedShareIdentity(meaning: Meaning, a: Keywords, b: Keywords, v: Json)
    requires UnionSelector(a).Selects? && UnionSelector(b).Selects? && b.types.TypeList? && !IsScalar(v)
    requires IsOfKind(a, v) && TypesAccept(b.types, v)
    ensures UnionSelector(a).selector.identity == UnionSelector(b).selector.identity
  {
    assert b.types.names[0] == TArray && a.types == OneType(TArray);
  }

  lemma {:induction false} KindsShareIdentity(a: Keywords, b: Keywords, v: Json)
    requires UnionSelector(a).Selects? && UnionSelector(b).Selects? && IsValue(v)
    requires a.properties.Properties? ==> NoRepeats(PropertyKeys(a.properties.list))
    requires b.properties.Properties? ==> NoRepeats(PropertyKeys(b.properties.list))
    requires IsOfKind(a, v) && IsOfKind(b, v)
    ensures UnionSelector(a).selector.identity == UnionSelector(b).selector.identity
  {
    SelectorIsKind(a, v);
    SelectorIsKind(b, v);
    MatchingSelectorsShareIdentity(a, b, v);
  }

  /** Of two branches for one array or object, neither requires uniqueness, unless they are the same. */
  lemma {:induction false} NeighboursArePlain(meaning: Meaning, branches: seq<Schema>, v: Json, i: nat, j: nat)
    requires IsTellable(branches) && BranchesAreSchemas(branches) && IsValue(v) && !IsScalar(v)
    requires i < |branches| && j < |branches| && i != j
    requires IsOfKind(branches[i].keywords, v) && Accepts(meaning, Erase(branches[j]), v)
    ensures !RequiresUnique(branches[j])
  {
    assert IsSchema(branches[i]) && IsSchema(branches[j]);
    var a, b := branches[i].keywords, branches[j].keywords;
    if b.types.TypeList? {
      ErasedAcceptsInParts(meaning, b, v);
      ListedShareIdentity(meaning, a, b, v);
    } else {
      AcceptedIsOfKind(meaning, branches[j], v);
      KindsShareIdentity(a, b, v);
    }
    assert !Indistinct(branches[i], branches[j]);
    IndistinctExactly(branches[i], branches[j]);
  }

  lemma {:induction false} SoundParts(k: Keywords)
    requires !Defective(Record(k)) && IsSchema(Record(k))
    ensures k.properties.Properties? ==> forall i :: 0 <= i < |k.properties.list| ==>
              !PropertyIsDefective(k.properties.list[i]) && PropertyIsSchema(k.properties.list[i])
    ensures k.items.Items? && k.items.schema.Record? ==> !Defective(k.items.schema) && IsSchema(k.items.schema)
    ensures k.anyOf.AnyOf? ==> !UnionIsDefective(k.anyOf.branches) && BranchesAreSchemas(k.anyOf.branches)
  {
    if k.properties.Properties? {
      assert !ListIsDefective(k.properties.list) && PropertiesAreSchemas(k.properties.list);
    }
  }

  /** What the wire schema accepts and the checks keep, the source accepts. */
  lemma {:induction false} KeptIsAccepted(meaning: Meaning, s: Schema, v: Json)
    requires !Defective(s) && IsSchema(s) && IsValue(v)
    requires Accepts(meaning, Erase(s), v) && IsKept(s, v)
    ensures Accepts(meaning, s, v)
    decreases s, 1
  {
    var k := s.keywords;
    SoundParts(k);
    AcceptsInParts(meaning, k, v);
    ErasedAcceptsInParts(meaning, k, v);
    if k.properties.Properties? {
      forall i | 0 <= i < |k.properties.list| ensures PropertyAccepts(meaning, k.properties.list[i], v) {
        assert PropertyAccepts(meaning, EraseProperties(k.properties.list)[i], v);
        KeptPropertyIsAccepted(meaning, k.properties.list[i], v);
      }
    }
    KeptItemsAreAccepted(meaning, k.items, v);
    if k.anyOf.AnyOf? {
      KeptByUnionIsAccepted(meaning, k.anyOf.branches, v);
    }
  }

  lemma {:induction false} KeptItemsAreAccepted(meaning: Meaning, items: Items, v: Json)
    requires items.Items? && items.schema.Record? ==> !Defective(items.schema) && IsSchema(items.schema)
    requires IsValue(v) && ItemsAccept(meaning, EraseItems(items), v) && ItemsKeep(items, v)
    ensures ItemsAccept(meaning, items, v)
    decreases items, 0
  {
    if items.Items? && v.Arr? {
      forall i | 0 <= i < |v.items| ensures Accepts(meaning, items.schema, v.items[i]) {
        assert Accepts(meaning, EraseItems(items).schema, v.items[i]);
        if items.schema.Record? {
          KeptIsAccepted(meaning, items.schema, v.items[i]);
        }
      }
    }
  }

  lemma {:induction false} KeptPropertyIsAccepted(meaning: Meaning, p: Property, v: Json)
    requires !PropertyIsDefective(p) && PropertyIsSchema(p) && IsValue(v)
    requires PropertyAccepts(meaning, EraseProperty(p), v) && PropertyKeeps(p, v)
    ensures PropertyAccepts(meaning, p, v)
    decreases p, 0
  {
    if v.Obj? {
      forall j | 0 <= j < |v.fields| && v.fields[j].key == p.key ensures Accepts(meaning, p.schema, v.fields[j].value) {
        KeptIsAccepted(meaning, p.schema, v.fields[j].value);
      }
    }
  }

  lemma {:induction false} KeptByUnionIsAccepted(meaning: Meaning, branches: seq<Schema>, v: Json)
    requires !UnionIsDefective(branches) && BranchesAreSchemas(branches) && IsValue(v)
    requires BranchAccepts(meaning, EraseBranches(branches), v)
    requires BranchRequiresUnique(branches) ==> BranchKeeps(branches, v)
    ensures BranchAccepts(meaning, branches, v)
    decreases branches, 0
  {
    var erased := EraseBranches(branches);
    var j :| 0 <= j < |erased| && Accepts(meaning, erased[j], v);
    assert Erase(branches[j]) == erased[j] && !Defective(branches[j]);
    if !BranchRequiresUnique(branches) {
      assert !RequiresUnique(branches[j]);
      PlainMeansTheSame(meaning, branches[j], v);
    } else if IsScalar(v) {
      ScalarsIgnoreUnique(meaning, branches[j], v);
    } else {
      TellableUnlessDefective(branches);
      var i :| 0 <= i < |branches| && Keeps(branches[i], v);
      if i == j {
        KeptIsAccepted(meaning, branches[j], v);
      } else {
        NeighboursArePlain(meaning, branches, v, i, j);
        PlainMeansTheSame(meaning, branches[j], v);
      }
    }
  }

  lemma {:induction false} TellableUnlessDefective(branches: seq<Schema>)
    requires !UnionIsDefective(branches) && BranchRequiresUnique(branches)
    ensures IsTellable(branches)
  {
    forall i | 0 <= i < |branches| ensures branches[i].Record? && UnionSelector(branches[i].keywords).Selects? {
      assert !Defective(branches[i]) && !IsUnselectable(branches[i]);
      SelectsExactly(branches[i].keywords);
    }
  }

  lemma {:induction false} ErasedIsSchema(s: Schema)
    requires IsSchema(s)
    ensures IsSchema(Erase(s))
    decreases s
  {
    if s.Record? {
      var k := s.keywords;
      var e := EraseKeywords(k);
      assert Erase(s) == Record(e);
      if e.properties.Properties? {
        assert e.properties == EraseDeclared(k.properties);
        assert k.properties.Properties?;
        assert PropertyKeys(e.properties.list) == PropertyKeys(k.properties.list);
        ErasedPropertiesAreSchemas(k.properties.list);
        assert NoRepeats(PropertyKeys(e.properties.list)) && PropertiesAreSchemas(e.properties.list);
      }
      if k.items.Items? {
        ErasedIsSchema(k.items.schema);
      }
      if k.anyOf.AnyOf? {
        ErasedBranchesAreSchemas(k.anyOf.branches);
      }
    }
  }

  lemma {:induction false} ErasedPropertiesAreSchemas(list: seq<Property>)
    requires PropertiesAreSchemas(list)
    ensures PropertiesAreSchemas(EraseProperties(list))
    decreases list
  {
    forall i | 0 <= i < |list| ensures PropertyIsSchema(EraseProperties(list)[i]) {
      var p := list[i];
      assert PropertyIsSchema(p);
      ErasedIsSchema(p.schema);
    }
  }

  lemma {:induction false} ErasedBranchesAreSchemas(branches: seq<Schema>)
    requires BranchesAreSchemas(branches)
    ensures BranchesAreSchemas(EraseBranches(branches))
    decreases branches
  {
    forall i | 0 <= i < |branches| ensures IsSchema(EraseBranches(branches)[i]) {
      ErasedIsSchema(branches[i]);
    }
  }

  // ----- what preparing a schema keeps of its meaning -----

  /**
   Main result. For every prepared schema, every reading of the other keywords and
   every value: the wire schema accepts the value and `acceptsUniqueItems` holds exactly
   when the source accepts it and it is kept. So nothing is let through that the source
   refuses, and what is lost of what it accepts is exactly what is not kept. The wire
   schema is the source without `uniqueItems`, at any depth.
   */
  lemma {:induction false} PreparedSchemaIsExact(meaning: Meaning, source: Keywords, v: Json)
    requires Prepare(source).Part? && IsSchema(Record(source)) && IsValue(v)
    ensures Accepts(meaning, Record(Prepare(source).wire), v) && AllHold(Prepare(source).checks, v)
       <==> Accepts(meaning, Record(source), v) && IsKept(Record(source), v)
    ensures Record(Prepare(source).wire) == Erase(Record(source))
    ensures !MentionsUnique(Record(Prepare(source).wire))
  {
    WireIsErased(source);
    ErasedMentionsNoUnique(Record(source));
    ChecksHoldExactly(source, v);
    CompileSchemaIsExact(Record(source));
    assert CompileSchema(Record(source)) == CompileKeywords(source);
    if Accepts(meaning, Record(source), v) {
      ErasingWeakens(meaning, Record(source), v);
    }
    if Accepts(meaning, Erase(Record(source)), v) && IsKept(Record(source), v) {
      KeptIsAccepted(meaning, Record(source), v);
    }
  }

  /** The same for one union with uniqueness: what it loses is what no branch of the value's kind keeps. */
  lemma {:induction false} UniqueUnionIsExact(meaning: Meaning, branches: seq<Schema>, v: Json)
    requires CompileUnion(AnyOf(branches)).Part? && BranchesAreSchemas(branches) && BranchRequiresUnique(branches) && IsValue(v)
    ensures BranchAccepts(meaning, EraseBranches(branches), v) && AllHold(CompileUnion(AnyOf(branches)).checks, v)
       <==> BranchAccepts(meaning, branches, v) && BranchKeeps(branches, v)
  {
    UnionChecksHoldExactly(AnyOf(branches), v);
    CompileUnionIsExact(AnyOf(branches));
    if BranchAccepts(meaning, branches, v) {
      var i :| 0 <= i < |branches| && Accepts(meaning, branches[i], v);
      ErasingWeakens(meaning, branches[i], v);
      assert Accepts(meaning, EraseBranches(branches)[i], v);
    }
    if BranchAccepts(meaning, EraseBranches(branches), v) && BranchKeeps(branches, v) {
      KeptByUnionIsAccepted(meaning, branches, v);
    }
  }

  /** Every branch with a list of types, in a union with uniqueness, has a sibling that covers its type. */
  predicate CoveredUnions(s: Schema)
    decreases s
  {
    s.Record? ==>
      && (s.keywords.properties.Properties? ==> ListIsCovered(s.keywords.properties.list))
      && (s.keywords.items.Items? ==> CoveredUnions(s.keywords.items.schema))
      && (s.keywords.anyOf.AnyOf? ==> BranchesAreCovered(s.keywords.anyOf.branches))
  }

  predicate BranchesAreCovered(branches: seq<Schema>)
    decreases branches
  {
    && (forall i :: 0 <= i < |branches| ==> CoveredUnions(branches[i]))
    && (BranchRequiresUnique(branches) ==> forall i :: 0 <= i < |branches| ==> IsCovered(branches, branches[i]))
  }

  /** A list of one type is covered by a sibling without uniqueness that names the type alone; `number` covers `integer`. */
  predicate IsCovered(branches: seq<Schema>, branch: Schema) {
    branch.Record? && branch.keywords.types.TypeList? && |branch.keywords.types.names| == 1 ==>
      exists i :: 0 <= i < |branches| && Covers(branches[i], branch.keywords.types.names[0])
  }

  predicate Covers(sibling: Schema, name: TypeName) {
    && sibling.Record? && sibling.keywords.types.OneType? && !RequiresUnique(sibling)
    && (sibling.keywords.types.name == name || (name == TInteger && sibling.keywords.types.name == TNumber))
  }

  predicate ListIsCovered(list: seq<Property>)
    decreases list
  {
    forall i :: 0 <= i < |list| ==> PropertyIsCovered(list[i])
  }

  predicate PropertyIsCovered(p: Property)
    decreases p
  {
    CoveredUnions(p.schema)
  }

  lemma {:induction false} CoveredParts(k: Keywords)
    requires CoveredUnions(Record(k))
    ensures k.properties.Properties? ==> forall i :: 0 <= i < |k.properties.list| ==> PropertyIsCovered(k.properties.list[i])
    ensures k.items.Items? ==> CoveredUnions(k.items.schema)
    ensures k.anyOf.AnyOf? ==> BranchesAreCovered(k.anyOf.branches)
  {
    if k.properties.Properties? {
      assert ListIsCovered(k.properties.list);
    }
  }

  lemma {:induction false} AcceptedIsKept(meaning: Meaning, s: Schema, v: Json)
    requires !Defective(s) && IsSchema(s) && CoveredUnions(s) && IsValue(v)
    requires Accepts(meaning, s, v)
    ensures IsKept(s, v)
    decreases s, 1
  {
    var k := s.keywords;
    SoundParts(k);
    CoveredParts(k);
    AcceptsInParts(meaning, k, v);
    if k.properties.Properties? {
      forall i | 0 <= i < |k.properties.list| ensures PropertyKeeps(k.properties.list[i], v) {
        AcceptedPropertyIsKept(meaning, k.properties.list[i], v);
      }
    }
    if k.items.Items? && v.Arr? {
      forall i | 0 <= i < |v.items| ensures IsKept(k.items.schema, v.items[i]) {
        if k.items.schema.Record? {
          AcceptedIsKept(meaning, k.items.schema, v.items[i]);
        }
      }
    }
    if k.anyOf.AnyOf? && BranchRequiresUnique(k.anyOf.branches) {
      AcceptedByUnionIsKept(meaning, k.anyOf.branches, v);
    }
  }

  lemma {:induction false} AcceptedPropertyIsKept(meaning: Meaning, p: Property, v: Json)
    requires !PropertyIsDefective(p) && PropertyIsSchema(p) && PropertyIsCovered(p) && IsValue(v)
    requires PropertyAccepts(meaning, p, v)
    ensures PropertyKeeps(p, v)
    decreases p, 0
  {
    if v.Obj? {
      forall j | 0 <= j < |v.fields| && v.fields[j].key == p.key ensures IsKept(p.schema, v.fields[j].value) {
        AcceptedIsKept(meaning, p.schema, v.fields[j].value);
      }
    }
  }

  lemma {:induction false} AcceptedByUnionIsKept(meaning: Meaning, branches: seq<Schema>, v: Json)
    requires !UnionIsDefective(branches) && BranchesAreSchemas(branches) && BranchesAreCovered(branches) && IsValue(v)
    requires BranchRequiresUnique(branches) && BranchAccepts(meaning, branches, v)
    ensures BranchKeeps(branches, v)
    decreases branches, 0
  {
    TellableUnlessDefective(branches);
    var j :| 0 <= j < |branches| && Accepts(meaning, branches[j], v);
    assert !Defective(branches[j]) && IsSchema(branches[j]) && CoveredUnions(branches[j]);
    if branches[j].keywords.types.TypeList? {
      assert IsCovered(branches, branches[j]);
      AcceptsInParts(meaning, branches[j].keywords, v);
      CoverKeeps(branches, branches[j].keywords, v);
    } else {
      ErasingWeakens(meaning, branches[j], v);
      AcceptedIsOfKind(meaning, branches[j], v);
      AcceptedIsKept(meaning, branches[j], v);
      assert Keeps(branches[j], v);
    }
  }

  lemma {:induction false} CoverKeeps(branches: seq<Schema>, k: Keywords, v: Json)
    requires IsCovered(branches, Record(k)) && UnionSelector(k).Selects? && k.types.TypeList? && TypesAccept(k.types, v)
    ensures BranchKeeps(branches, v)
  {
    var i :| 0 <= i < |branches| && Covers(branches[i], k.types.names[0]);
    PlainKeepsAll(branches[i], v);
    assert Keeps(branches[i], v);
  }

  /** Where every list of types is covered, preparation preserves the meaning: wire schema and check accept what the source accepts. */
  lemma {:induction false} PreparedSchemaPreservesMeaning(meaning: Meaning, source: Keywords, v: Json)
    requires Prepare(source).Part? && IsSchema(Record(source)) && CoveredUnions(Record(source)) && IsValue(v)
    ensures Accepts(meaning, Record(source), v)
       <==> Accepts(meaning, Record(Prepare(source).wire), v) && AllHold(Prepare(source).checks, v)
  {
    PreparedSchemaIsExact(meaning, source, v);
    CompileSchemaIsExact(Record(source));
    assert CompileSchema(Record(source)) == CompileKeywords(source);
    if Accepts(meaning, Record(source), v) {
      AcceptedIsKept(meaning, Record(source), v);
    }
  }

  // ----- lists of types -----

  /**
   A branch `[t]` beside any siblings: a union with uniqueness accepts what the branch
   accepts, and loses it, unless a sibling is of the value's kind.
   */
  lemma {:induction false} ListOfOneTypeIsLost(meaning: Meaning, branches: seq<Schema>, v: Json, i: nat)
    requires CompileUnion(AnyOf(branches)).Part? && BranchesAreSchemas(branches) && BranchRequiresUnique(branches) && IsValue(v)
    requires i < |branches| && branches[i].Record? && branches[i].keywords.types.TypeList? && Accepts(meaning, branches[i], v)
    requires forall j :: 0 <= j < |branches| && j != i && branches[j].Record? ==> !IsOfKind(branches[j].keywords, v)
    ensures BranchAccepts(meaning, branches, v) && BranchAccepts(meaning, EraseBranches(branches), v)
    ensures !AllHold(CompileUnion(AnyOf(branches)).checks, v)
  {
    UnionChecksHoldExactly(AnyOf(branches), v);
    ErasingWeakens(meaning, branches[i], v);
    assert Accepts(meaning, EraseBranches(branches)[i], v);
    forall j | 0 <= j < |branches| ensures !Keeps(branches[j], v) {
      assert j == i ==> !IsOfKind(branches[j].keywords, v);
    }
  }

  function Plain(types: TypeKeyword): Keywords {
    Keywords(types, NoUnique, NoProperties, NoRequired, false, NoItems, NoUnion, NoProperties, false, [])
  }

  function NullOrUnique(types: TypeKeyword): Keywords {
    Plain(NoType).(anyOf := AnyOf([Record(Plain(types)), Record(Plain(OneType(TArray)).(unique := Unique(true)))]))
  }

  const LOST: Keywords := NullOrUnique(TypeList([TNull]))

  lemma {:induction false} LostIsSound()
    ensures !Defective(Record(LOST)) && !Refers(Record(LOST))
    ensures BranchesAreSchemas(LOST.anyOf.branches) && BranchRequiresUnique(LOST.anyOf.branches) && !UnionIsDefective(LOST.anyOf.branches)
  {
    var a, b := Plain(TypeList([TNull])), Plain(OneType(TArray)).(unique := Unique(true));
    var branches := LOST.anyOf.branches;
    assert branches == [Record(a), Record(b)] && branches[1] == Record(b);
    assert RequiresUnique(Record(b));
    assert !Defective(Record(a)) && !Defective(Record(b)) && !Refers(Record(a)) && !Refers(Record(b));
    assert IsSchema(Record(a)) && IsSchema(Record(b));
    assert !Indistinct(Record(a), Record(b)) && !Indistinct(Record(b), Record(a));
    assert !BranchIsDefective(branches) && !SomeUnselectable(branches) && !SomeIndistinct(branches);
    assert !UnionIsDefective(branches) && !BranchRefers(branches);
  }

  lemma {:induction false} LostAcceptsNull(meaning: Meaning)
    requires meaning([], Null)
    ensures Accepts(meaning, LOST.anyOf.branches[0], Null) && Accepts(meaning, Record(LOST), Null)
  {
    var branches := LOST.anyOf.branches;
    assert IsOfType([TNull][0], Null);
    AcceptsInParts(meaning, branches[0].keywords, Null);
    assert BranchAccepts(meaning, branches, Null);
    AcceptsInParts(meaning, LOST, Null);
  }

  /** For instance, `{"anyOf": [{"type": ["null"]}, {"type": "array", "uniqueItems": true}]}` accepts null; its compiled check does not. */
  lemma {:induction false} NullIsLost(meaning: Meaning)
    requires meaning([], Null)
    ensures Prepare(LOST).Part?
    ensures Accepts(meaning, Record(LOST), Null) && !AllHold(Prepare(LOST).checks, Null)
  {
    hide Defective, UnionIsDefective, Refers, RequiresUnique, BranchRequiresUnique, BranchesAreSchemas, Accepts,
         BranchAccepts, CompileKeywords, CompileUnion, AllHold, IsSchema;
    var branches := LOST.anyOf.branches;
    LostIsSound();
    LostAcceptsNull(meaning);
    PrepareRefusesExactly(LOST);
    CompileUnionIsExact(LOST.anyOf);
    ListOfOneTypeIsLost(meaning, branches, Null, 0);
    ChecksSplit(LOST, Null);
  }

  // ----- compile, step by step -----

  lemma {:induction false} RefusedPrefix(list: seq<Property>, n: nat)
    requires n <= |list| && CompileProperties(list[..n]).Refused?
    ensures CompileProperties(list).Refused?
    decreases |list| - n
  {
    if n < |list| {
      assert list[..n + 1][..n] == list[..n];
      RefusedPrefix(list, n + 1);
    } else {
      assert list[..n] == list;
    }
  }

  lemma {:induction false} MissingPrefix(branches: seq<Schema>, n: nat)
    requires 0 < n <= |branches| && CompileBranches(branches[..n]) == []
    ensures CompileBranches(branches) == []
    decreases |branches| - n
  {
    if n < |branches| {
      var longer := branches[..n + 1];
      assert longer[..|longer| - 1] == branches[..n];
      assert CompileBranches(longer) == [];
      MissingPrefix(branches, n + 1);
    } else {
      assert branches[..n] == branches;
    }
  }

  method CompileNode(s: Schema) returns (r: Part<Keywords>)
    ensures r == CompileSchema(s)
    decreases s, 1
  {
    if s.BooleanSchema? {
      return Refused;
    }
    r := Compile(s.keywords);
  }

  method CompilePropertyLoop(list: seq<Property>) returns (r: Part<seq<Property>>)
    ensures r == CompileProperties(list)
    decreases list, 1
  {
    var properties: seq<Property>, checks: seq<Check>, hasUnique, hasReference := [], [], false, false;
    var i := 0;
    while i < |list|
      invariant 0 <= i <= |list|
      invariant CompileProperties(list[..i]) == Part(properties, checks, hasUnique, hasReference)
    {
      assert list[..i + 1][..i] == list[..i];
      var child := CompileNode(list[i].schema);
      if child.Refused? {
        RefusedPrefix(list, i + 1);
        return Refused;
      }
      hasUnique, hasReference := hasUnique || child.hasUnique, hasReference || child.hasReference;
      properties := properties + [Property(list[i].key, Record(child.wire))];
      checks := checks + [PropertyCheck(list[i].key, child.checks)];
      i := i + 1;
    }
    assert list[..i] == list;
    r := Part(properties, checks, hasUnique, hasReference);
  }

  method CompileBranchLoop(branches: seq<Schema>) returns (parts: seq<Part<Keywords>>)
    ensures parts == CompileBranches(branches)
    decreases branches, 1
  {
    parts := [];
    var i := 0;
    while i < |branches|
      invariant 0 <= i <= |branches| && |parts| == i
      invariant parts == CompileBranches(branches[..i])
    {
      var longer := branches[..i + 1];
      assert longer[..|longer| - 1] == branches[..i];
      var child := CompileNode(branches[i]);
      if child.Refused? {
        MissingPrefix(branches, i + 1);
        return [];
      }
      parts := parts + [child];
      i := i + 1;
    }
    assert branches[..i] == branches;
  }

  /** The nested search for two branches with one identity. */
  method FindClash(parts: seq<Part<Keywords>>, selected: seq<Branch>) returns (found: bool)
    requires |parts| == |selected| && forall i :: 0 <= i < |parts| ==> parts[i].Part?
    ensures found <==> Ambiguous(parts, selected)
  {
    var i := 0;
    while i < |parts|
      invariant 0 <= i <= |parts|
      invariant forall a, b :: 0 <= a < i && 0 <= b < |parts| && a != b ==> !Clash(parts, selected, a, b)
    {
      var j := 0;
      while j < |parts|
        invariant 0 <= j <= |parts|
        invariant forall b :: 0 <= b < j && b != i ==> !Clash(parts, selected, i, b)
      {
        if j != i && selected[j].selector.identity == selected[i].selector.identity && (parts[i].hasUnique || parts[j].hasUnique) {
          assert Clash(parts, selected, i, j);
          return true;
        }
        j := j + 1;
      }
      i := i + 1;
    }
    return false;
  }

  method CompileDeclaration(properties: Properties) returns (r: Part<Properties>)
    ensures r == CompileDeclared(properties)
    decreases properties, 1
  {
    if properties.NoProperties? {
      return Part(NoProperties, [], false, false);
    }
    var part := CompilePropertyLoop(properties.list);
    if part.Refused? {
      return Refused;
    }
    return Part(Properties(part.wire), part.checks, part.hasUnique, part.hasReference);
  }

  method CompileItemSchema(items: Items) returns (r: Part<Items>)
    ensures r == CompileItems(items)
    decreases items, 1
  {
    if items.NoItems? || items.schema.BooleanSchema? {
      return Part(items, [], false, false);
    }
    var child := CompileNode(items.schema);
    if child.Refused? {
      return Refused;
    }
    return Part(Items(Record(child.wire)), [ItemsCheck(child.checks)], child.hasUnique, child.hasReference);
  }

  method CompileAnyOf(union: Union) returns (r: Part<Union>)
    ensures r == CompileUnion(union)
    decreases union, 1
  {
    if union.NoUnion? {
      return Part(union, [], false, false);
    }
    var parts := CompileBranchLoop(union.branches);
    if parts == [] && union.branches != [] {
      return Refused;
    }
    var wire := AnyOf(WireBranches(parts));
    if !SomeUnique(parts) {
      return Part(wire, [], false, SomeReference(parts));
    }
    var selected := SelectBranches(parts);
    if |selected| != |parts| {
      return Refused;
    }
    var clash := FindClash(parts, selected);
    if clash {
      return Refused;
    }
    return Part(wire, [UnionCheck(selected)], true, SomeReference(parts));
  }

  /** `compile`: checks are pushed and flags raised while the cloned schema loses its `uniqueItems`. */
  method Compile(source: Keywords) returns (r: Part<Keywords>)
    ensures r == CompileKeywords(source)
    decreases source, 1
  {
    hide CompileDeclared, CompileItems, CompileUnion;
    var schema, checks, hasUnique, hasReference := source, [], false, source.reference;
    if source.unique != NoUnique {
      if source.types != OneType(TArray) || source.unique.UniqueMalformed? {
        return Refused;
      }
      schema := schema.(unique := NoUnique);
      if source.unique.flag {
        hasUnique := true;
        checks := checks + [UniqueCheck];
      }
    }
    var properties := CompileDeclaration(source.properties);
    if properties.Refused? {
      return Refused;
    }
    hasUnique, hasReference := hasUnique || properties.hasUnique, hasReference || properties.hasReference;
    schema := schema.(properties := properties.wire);
    checks := checks + properties.checks;

    var items := CompileItemSchema(source.items);
    if items.Refused? {
      return Refused;
    }
    hasUnique, hasReference := hasUnique || items.hasUnique, hasReference || items.hasReference;
    schema := schema.(items := items.wire);
    checks := checks + items.checks;

    var union := CompileAnyOf(source.anyOf);
    if union.Refused? {
      return Refused;
    }
    hasUnique, hasReference := hasUnique || union.hasUnique, hasReference || union.hasReference;
    schema := schema.(anyOf := union.wire);
    checks := checks + union.checks;

    var defs := CompileDeclaration(source.defs);
    if defs.Refused? {
      return Refused;
    }
    hasUnique, hasReference := hasUnique || defs.hasUnique, hasReference || defs.hasReference;
    schema := schema.(defs := defs.wire);
    r := Part(schema, checks, hasUnique, hasReference);
  }
}
