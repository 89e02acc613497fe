/**
 captured-document-operation.ts, lines 116-467: planning a captured document from
 its inputs, and rebuilding the same plan from the accepted snapshot.

 The ledger checks that planning depends on (document-ledger.ts: unique keys, known
 references) are part of the model; the remaining metadata checks of the ledger are
 one arbitrary flag of the template.
 */
module CapturedPlan {
  import opened Texts
  import opened JsonText
  import opened C = CanonicalJson
  import Utf8

  datatype NeutralFallback = NoFallback | NeutralFallback(content: Text, whenInputsAbsent: seq<Text>)

  datatype SectionContract = SectionContract(
    sectionKey: Text,
    required: bool,
    dependsOnInputs: seq<Text>,
    usesNeutralFallback: bool,
    neutralFallback: NeutralFallback,
    minWords: nat,
    minBullets: nat)

  /** `exactWording`: the review policy of the contract is exact_wording_v2. */
  datatype Template = Template(
    requiredInputs: seq<Text>,
    optionalInputs: seq<Text>,
    sections: seq<SectionContract>,
    metadataValid: bool,
    exactWording: bool)

  datatype Source = Source(id: Text, inputKey: Text, value: Json)

  datatype Plan = Plan(
    template: Template,
    inputValues: seq<Field>,
    safe: seq<Text>,
    blocked: seq<Text>,
    unresolved: seq<Text>,
    sources: seq<Source>,
    permitted: seq<Text>,
    confirmations: seq<Field>)

  datatype PlanResult = Rejected | Planned(plan: Plan)

  // Property names and fixed texts, as code units.
  const SOURCES: Text := [115, 111, 117, 114, 99, 101, 115]
  const ID: Text := [105, 100]
  const INPUT_KEY: Text := [105, 110, 112, 117, 116, 95, 107, 101, 121]
  const SOURCE_TYPE: Text := [115, 111, 117, 114, 99, 101, 95, 116, 121, 112, 101]
  const VALUE: Text := [118, 97, 108, 117, 101]
  const MATERIAL_CLAIMS_REQUIRE_SOURCE_REFERENCE: Text := [109, 97, 116, 101, 114, 105, 97, 108, 95, 99, 108, 97, 105, 109, 115, 95, 114, 101, 113, 117, 105, 114, 101, 95, 115, 111, 117, 114, 99, 101, 95, 114, 101, 102, 101, 114, 101, 110, 99, 101]
  const PERMITTED_SOURCE_IDS: Text := [112, 101, 114, 109, 105, 116, 116, 101, 100, 95, 115, 111, 117, 114, 99, 101, 95, 105, 100, 115]
  const CONFIRMED: Text := [99, 111, 110, 102, 105, 114, 109, 101, 100]
  const SOURCE_ID: Text := [115, 111, 117, 114, 99, 101, 95, 105, 100]
  const CONFIRMED_REQUEST_INPUT: Text := [99, 111, 110, 102, 105, 114, 109, 101, 100, 95, 114, 101, 113, 117, 101, 115, 116, 95, 105, 110, 112, 117, 116]
  const INPUT_PREFIX: Text := [105, 110, 112, 117, 116, 58]

  const MAX_INPUT_SNAPSHOT_BYTES: nat := 256_000

  // ----- values and keys -----

  predicate HasValue(v: Json)
    decreases v
  {
    match v
    case Str(t) => IsVisible(t)
    case Num(_) => true
    case Bool(_) => true
    case Arr(items) => exists i :: 0 <= i < |items| && HasValue(items[i])
    case Obj(fields) => exists i :: 0 <= i < |fields| && FieldHasValue(fields[i])
    case Null => false
  }

  predicate FieldHasValue(f: Field)
    decreases f
  {
    HasValue(f.value)
  }

  /** The primitive values inside a value. */
  function Leaves(v: Json): seq<Json>
    decreases v, 0
  {
    match v
    case Arr(items) => LeavesOf(items)
    case Obj(fields) => FieldLeaves(fields)
    case _ => [v]
  }

  function LeavesOf(items: seq<Json>): seq<Json>
    decreases items, 1
  {
    if items == [] then [] else Leaves(items[0]) + LeavesOf(items[1..])
  }

  function FieldLeaves(fields: seq<Field>): seq<Json>
    decreases fields, 1
  {
    if fields == [] then [] else Leaves(fields[0].value) + FieldLeaves(fields[1..])
  }

  /** A number, a boolean, or a text with something visible in it. */
  predicate Counts(leaf: Json) {
    leaf.Num? || leaf.Bool? || (leaf.Str? && exists i :: 0 <= i < |leaf.text| && !IsWhitespace(leaf.text[i]))
  }

  predicate SomeCounts(leaves: seq<Json>) {
    exists i :: 0 <= i < |leaves| && Counts(leaves[i])
  }

  lemma {:induction false} SomeCountsConcat(a: seq<Json>, b: seq<Json>)
    ensures SomeCounts(a + b) <==> SomeCounts(a) || SomeCounts(b)
  {
    if SomeCounts(a) {
      var i :| 0 <= i < |a| && Counts(a[i]);
      assert Counts((a + b)[i]);
    }
    if SomeCounts(b) {
      var i :| 0 <= i < |b| && Counts(b[i]);
      assert Counts((a + b)[|a| + i]);
    }
  }

  /** An input has a value exactly when something inside it counts: `false` and zero do, blank texts and null do not. */
  lemma {:induction false} HasValueExactly(v: Json)
    ensures HasValue(v) <==> SomeCounts(Leaves(v))
    decreases v, 0
  {
    match v
    case Arr(items) => HasValueInItems(items);
    case Obj(fields) => HasValueInFields(fields);
    case _ => assert Leaves(v)[0] == v;
  }

  lemma {:induction false} HasValueInItems(items: seq<Json>)
    ensures (exists i :: 0 <= i < |items| && HasValue(items[i])) <==> SomeCounts(LeavesOf(items))
    decreases items, 1
  {
    if items != [] {
      HasValueExactly(items[0]);
      HasValueInItems(items[1..]);
      SomeCountsConcat(Leaves(items[0]), LeavesOf(items[1..]));
      assert forall i :: 1 <= i < |items| ==> items[i] == items[1..][i - 1];
    }
  }

  lemma {:induction false} HasValueInFields(fields: seq<Field>)
    ensures (exists i :: 0 <= i < |fields| && FieldHasValue(fields[i])) <==> SomeCounts(FieldLeaves(fields))
    decreases fields, 1
  {
    if fields != [] {
      HasValueExactly(fields[0].value);
      HasValueInFields(fields[1..]);
      SomeCountsConcat(Leaves(fields[0].value), FieldLeaves(fields[1..]));
      assert forall i :: 1 <= i < |fields| ==> fields[i] == fields[1..][i - 1];
    }
  }

  datatype Lookup = Missing | Found(value: Json)

  function Get(fields: seq<Field>, key: Text): (r: Lookup)
    ensures r.Found? <==> HasKey(fields, key)
    ensures r.Found? ==> exists i :: 0 <= i < |fields| && fields[i] == Field(key, r.value)
  {
    if fields == [] then Missing
    else if fields[0].key == key then
      assert fields[0] == Field(key, fields[0].value);
      Found(fields[0].value)
    else
      var r := Get(fields[1..], key);
      assert forall i :: 0 <= i < |fields[1..]| ==> fields[1..][i] == fields[i + 1];
      assert forall i :: 1 <= i < |fields| ==> fields[i] == fields[1..][i - 1];
      r
  }

  /** `hasValue(inputValues[key])`. */
  predicate HasInput(inputValues: seq<Field>, key: Text) {
    exists i :: 0 <= i < |inputValues| && inputValues[i].key == key && HasValue(inputValues[i].value)
  }

  function InputKeys(template: Template): seq<Text> {
    template.requiredInputs + template.optionalInputs
  }

  function SectionKeys(sections: seq<SectionContract>): (r: seq<Text>)
    ensures |r| == |sections| && forall i :: 0 <= i < |r| ==> r[i] == sections[i].sectionKey
  {
    if sections == [] then [] else [sections[0].sectionKey] + SectionKeys(sections[1..])
  }

  function FieldNames(fields: seq<Field>): (r: seq<Text>)
    ensures |r| == |fields| && forall i :: 0 <= i < |r| ==> r[i] == fields[i].key
  {
    if fields == [] then [] else [fields[0].key] + FieldNames(fields[1..])
  }

  function SnapshotSize(inputValues: seq<Field>): nat {
    Utf8.ByteLength(Stringify(Obj(inputValues)))
  }

  // ----- planning -----

  function Select(requested: seq<Field>, allowed: seq<Text>): (r: seq<Field>)
    ensures forall f :: f in r <==> f in requested && f.key in allowed && HasValue(f.value)
  {
    if requested == [] then []
    else if requested[0].key in allowed && HasValue(requested[0].value) then [requested[0]] + Select(requested[1..], allowed)
    else Select(requested[1..], allowed)
  }

  function MissingInputs(required: seq<Text>, inputValues: seq<Field>): (r: seq<Text>)
    ensures forall k :: k in r <==> k in required && !HasInput(inputValues, k)
  {
    if required == [] then []
    else if HasInput(inputValues, required[0]) then MissingInputs(required[1..], inputValues)
    else [required[0]] + MissingInputs(required[1..], inputValues)
  }

  function InsertText(t: Text, sorted: seq<Text>): (r: seq<Text>)
    ensures forall k :: k in r <==> k == t || k in sorted
    ensures |r| == |sorted| + 1
  {
    if sorted == [] || Less(t, sorted[0]) then [t] + sorted else [sorted[0]] + InsertText(t, sorted[1..])
  }

  function SortTexts(texts: seq<Text>): (r: seq<Text>)
    ensures forall k :: k in r <==> k in texts
    ensures |r| == |texts|
  {
    if texts == [] then [] else InsertText(texts[0], SortTexts(texts[1..]))
  }

  /** The unresolved inputs: required inputs without a value, sorted. */
  function Unresolved(template: Template, inputValues: seq<Field>): (r: seq<Text>)
    ensures forall k :: k in r <==> k in template.requiredInputs && !HasInput(inputValues, k)
  {
    SortTexts(MissingInputs(template.requiredInputs, inputValues))
  }

  predicate DependsOn(section: SectionContract, missing: seq<Text>) {
    exists i :: 0 <= i < |section.dependsOnInputs| && section.dependsOnInputs[i] in missing
  }

  function BlockedKeys(sections: seq<SectionContract>, missing: seq<Text>): (r: seq<Text>)
    ensures forall k :: k in r <==> exists i :: 0 <= i < |sections| && sections[i].sectionKey == k && DependsOn(sections[i], missing)
  {
    if sections == [] then []
    else
      var rest := BlockedKeys(sections[1..], missing);
      assert forall i :: 1 <= i < |sections| ==> sections[i] == sections[1..][i - 1];
      assert forall i :: 0 <= i < |sections[1..]| ==> sections[1..][i] == sections[i + 1];
      if DependsOn(sections[0], missing) then
        assert sections[0].sectionKey == sections[0].sectionKey;
        [sections[0].sectionKey] + rest
      else rest
  }

  function Excluding(keys: seq<Text>, excluded: seq<Text>): (r: seq<Text>)
    ensures forall k :: k in r <==> k in keys && k !in excluded
  {
    if keys == [] then []
    else if keys[0] in excluded then Excluding(keys[1..], excluded)
    else [keys[0]] + Excluding(keys[1..], excluded)
  }

  function SourcesOf(inputValues: seq<Field>): (r: seq<Source>)
    ensures |r| == |inputValues|
    ensures forall i :: 0 <= i < |r| ==> r[i] == Source(INPUT_PREFIX + inputValues[i].key, inputValues[i].key, inputValues[i].value)
  {
    if inputValues == [] then []
    else [Source(INPUT_PREFIX + inputValues[0].key, inputValues[0].key, inputValues[0].value)] + SourcesOf(inputValues[1..])
  }

  function SourceIds(sources: seq<Source>): (r: seq<Text>)
    ensures |r| == |sources| && forall i :: 0 <= i < |r| ==> r[i] == sources[i].id
  {
    if sources == [] then [] else [sources[0].id] + SourceIds(sources[1..])
  }

  function Confirmation(key: Text): Json {
    Obj([Field(CONFIRMED, Bool(true)), Field(SOURCE_ID, Str(INPUT_PREFIX + key))])
  }

  function ConfirmationsOf(inputValues: seq<Field>): (r: seq<Field>)
    ensures |r| == |inputValues|
    ensures forall i :: 0 <= i < |r| ==> r[i] == Field(inputValues[i].key, Confirmation(inputValues[i].key))
  {
    if inputValues == [] then []
    else [Field(inputValues[0].key, Confirmation(inputValues[0].key))] + ConfirmationsOf(inputValues[1..])
  }

  /** planCapturedInputs for a known template. */
  function PlanInputs(template: Template, raw: Json): PlanResult {
    if !raw.Obj? then Rejected
    else
      var inputValues := Select(raw.fields, InputKeys(template));
      if SnapshotSize(inputValues) > MAX_INPUT_SNAPSHOT_BYTES then Rejected
      else
        var unresolved := Unresolved(template, inputValues);
        var blocked := BlockedKeys(template.sections, unresolved);
        var sources := SourcesOf(inputValues);
        Planned(Plan(
          template,
          inputValues,
          Excluding(SectionKeys(template.sections), blocked),
          blocked,
          unresolved,
          sources,
          SourceIds(sources),
          ConfirmationsOf(inputValues)))
  }

  // ----- restoring -----

  /** The accepted snapshot as it comes back from the database. */
  datatype Snapshot = Snapshot(
    identityValid: bool,
    template: Template,
    inputValues: Json,
    sourceSnapshot: Json,
    evidenceSnapshot: Json,
    confirmations: Json,
    unresolved: Json,
    safe: Json,
    blocked: Json)

  /** The part of the ledger validation that plans rely on. */
  predicate LedgerIsValid(template: Template) {
    && template.metadataValid
    && NoRepeats(InputKeys(template))
    && NoRepeats(SectionKeys(template.sections))
    && template.sections != []
    && (forall i :: 0 <= i < |InputKeys(template)| ==> IsVisible(InputKeys(template)[i]))
    && (forall i :: 0 <= i < |template.sections| ==>
          IsVisible(template.sections[i].sectionKey) && KnowsInputs(template, template.sections[i]))
  }

  predicate KnowsInputs(template: Template, section: SectionContract) {
    forall i :: 0 <= i < |section.dependsOnInputs| ==> section.dependsOnInputs[i] in InputKeys(template)
  }

  datatype Keys = NoKeys | Keys(list: seq<Text>)

  predicate IsTextArray(v: Json) {
    && v.Arr?
    && (forall i :: 0 <= i < |v.items| ==> v.items[i].Str? && IsTrimmed(v.items[i].text))
    && (forall i, j :: 0 <= i < j < |v.items| ==> v.items[i] != v.items[j])
  }

  function TextItems(items: seq<Json>): (r: seq<Text>)
    requires forall i :: 0 <= i < |items| ==> items[i].Str?
    ensures |r| == |items| && forall i :: 0 <= i < |r| ==> r[i] == items[i].text
  {
    if items == [] then [] else [items[0].text] + TextItems(items[1..])
  }

  /** acceptedStringArray: trimmed, non-empty, distinct strings. */
  function AcceptedTexts(v: Json): Keys {
    if IsTextArray(v) then Keys(TextItems(v.items)) else NoKeys
  }

  predicate SameTextSet(left: seq<Text>, right: seq<Text>) {
    |left| == |right| && forall i :: 0 <= i < |left| ==> left[i] in right
  }

  predicate HasExactly(v: Json, keys: seq<Text>) {
    v.Obj? && |v.fields| == |keys| && forall i :: 0 <= i < |keys| ==> HasKey(v.fields, keys[i])
  }

  function GetOrNull(v: Json, key: Text): Json {
    if v.Obj? then (match Get(v.fields, key) case Found(x) => x case Missing => Null) else Null
  }

  /** An object with exactly these properties has each of them once. */
  lemma {:induction false} ExactFields(v: Json, keys: seq<Text>)
    requires HasExactly(v, keys) && NoRepeats(keys)
    ensures NoRepeats(FieldNames(v.fields))
    ensures forall i :: 0 <= i < |v.fields| ==> v.fields[i].key in keys
  {
    var names := FieldNames(v.fields);
    SetSize(keys);
    SetSize(names);
    forall key | key in ToSet(keys) ensures key in ToSet(names) {
      var k :| 0 <= k < |keys| && keys[k] == key;
      assert HasKey(v.fields, keys[k]);
      var i :| 0 <= i < |v.fields| && v.fields[i].key == key;
      assert names[i] == key;
    }
    SubsetSize(ToSet(keys), ToSet(names));
    forall i | 0 <= i < |v.fields| ensures v.fields[i].key in keys {
      assert names[i] in ToSet(names);
    }
  }

  lemma {:induction false} SubsetSize(a: set<Text>, b: set<Text>)
    requires a <= b
    ensures |a| <= |b| && (|b| <= |a| ==> a == b)
  {
    assert b == a + (b - a);
  }

  lemma {:induction false} OnlyField(fields: seq<Field>, i: nat)
    requires i < |fields| && NoRepeats(FieldNames(fields))
    ensures Get(fields, fields[i].key) == Found(fields[i].value)
  {
    assert HasKey(fields, fields[i].key);
    var x := Get(fields, fields[i].key).value;
    var j :| 0 <= j < |fields| && fields[j] == Field(fields[i].key, x);
    assert FieldNames(fields)[i] == FieldNames(fields)[j];
  }

  /** The values of an object with exactly these properties are what it says under their names. */
  lemma {:induction false} ValuesAreNamed(v: Json, keys: seq<Text>)
    requires HasExactly(v, keys) && NoRepeats(keys)
    ensures forall i :: 0 <= i < |v.fields| ==> v.fields[i].key in keys && GetOrNull(v, v.fields[i].key) == v.fields[i].value
    ensures forall k :: 0 <= k < |keys| ==> exists i :: 0 <= i < |v.fields| && v.fields[i] == Field(keys[k], GetOrNull(v, keys[k]))
  {
    ExactFields(v, keys);
    forall i | 0 <= i < |v.fields| ensures GetOrNull(v, v.fields[i].key) == v.fields[i].value {
      OnlyField(v.fields, i);
    }
    forall k | 0 <= k < |keys| ensures exists i :: 0 <= i < |v.fields| && v.fields[i] == Field(keys[k], GetOrNull(v, keys[k])) {
      assert HasKey(v.fields, keys[k]);
    }
  }

  /** One element of the stored source list, checked against the accepted values. */
  predicate SourceIsAccepted(raw: Json, inputValues: seq<Field>) {
    && HasExactly(raw, [ID, INPUT_KEY, SOURCE_TYPE, VALUE])
    && GetOrNull(raw, INPUT_KEY).Str?
    && HasKey(inputValues, GetOrNull(raw, INPUT_KEY).text)
    && GetOrNull(raw, ID) == Str(INPUT_PREFIX + GetOrNull(raw, INPUT_KEY).text)
    && GetOrNull(raw, SOURCE_TYPE) == Str(CONFIRMED_REQUEST_INPUT)
    && CanonicalJson(GetOrNull(raw, VALUE)) == CanonicalJson(GetOrNull(Obj(inputValues), GetOrNull(raw, INPUT_KEY).text))
  }

  function ReadSource(raw: Json): Source {
    var key := if GetOrNull(raw, INPUT_KEY).Str? then GetOrNull(raw, INPUT_KEY).text else [];
    Source(INPUT_PREFIX + key, key, GetOrNull(raw, VALUE))
  }

  function ReadSources(raw: seq<Json>): (r: seq<Source>)
    ensures |r| == |raw| && forall i :: 0 <= i < |r| ==> r[i] == ReadSource(raw[i])
  {
    if raw == [] then [] else ReadSources(raw[..|raw| - 1]) + [ReadSource(raw[|raw| - 1])]
  }

  function SourceInputKeys(sources: seq<Source>): (r: seq<Text>)
    ensures |r| == |sources| && forall i :: 0 <= i < |r| ==> r[i] == sources[i].inputKey
  {
    if sources == [] then [] else [sources[0].inputKey] + SourceInputKeys(sources[1..])
  }

  predicate ConfirmationIsAccepted(confirmations: seq<Field>, key: Text) {
    var raw := GetOrNull(Obj(confirmations), key);
    && HasExactly(raw, [CONFIRMED, SOURCE_ID])
    && GetOrNull(raw, CONFIRMED) == Bool(true)
    && GetOrNull(raw, SOURCE_ID) == Str(INPUT_PREFIX + key)
  }

  predicate ShapeIsAccepted(s: Snapshot) {
    && s.identityValid
    && LedgerIsValid(s.template)
    && s.inputValues.Obj?
    && s.confirmations.Obj?
    && AcceptedTexts(s.unresolved).Keys?
    && AcceptedTexts(s.safe).Keys?
    && AcceptedTexts(s.blocked).Keys?
    && HasExactly(s.sourceSnapshot, [SOURCES])
    && HasExactly(s.evidenceSnapshot, [MATERIAL_CLAIMS_REQUIRE_SOURCE_REFERENCE, PERMITTED_SOURCE_IDS])
    && SnapshotSize(s.inputValues.fields) <= MAX_INPUT_SNAPSHOT_BYTES
    && forall i :: 0 <= i < |s.inputValues.fields| ==>
         s.inputValues.fields[i].key in InputKeys(s.template) && HasValue(s.inputValues.fields[i].value)
  }

  predicate PartitionIsAccepted(template: Template, inputValues: seq<Field>, unresolved: seq<Text>, safe: seq<Text>, blocked: seq<Text>) {
    var expectedUnresolved := Unresolved(template, inputValues);
    var expectedBlocked := BlockedKeys(template.sections, expectedUnresolved);
    && SameTextSet(unresolved, expectedUnresolved)
    && SameTextSet(blocked, expectedBlocked)
    && SameTextSet(safe, Excluding(SectionKeys(template.sections), expectedBlocked))
    && forall i :: 0 <= i < |safe| ==> safe[i] !in blocked
  }

  predicate SourcesAreAccepted(raw: Json, inputValues: seq<Field>) {
    && raw.Arr?
    && |raw.items| == |inputValues|
    && (forall i :: 0 <= i < |raw.items| ==> SourceIsAccepted(raw.items[i], inputValues))
    && NoRepeats(SourceInputKeys(ReadSources(raw.items)))
  }

  predicate EvidenceIsAccepted(evidence: Json, sources: seq<Source>, confirmations: seq<Field>, inputValues: seq<Field>) {
    var permitted := AcceptedTexts(GetOrNull(evidence, PERMITTED_SOURCE_IDS));
    && GetOrNull(evidence, MATERIAL_CLAIMS_REQUIRE_SOURCE_REFERENCE) == Bool(true)
    && permitted.Keys?
    && SameTextSet(permitted.list, SourceIds(sources))
    && |confirmations| == |inputValues|
    && forall i :: 0 <= i < |inputValues| ==> ConfirmationIsAccepted(confirmations, inputValues[i].key)
  }

  /** restoreCapturedInputPlan. */
  function Restore(s: Snapshot): PlanResult {
    if !ShapeIsAccepted(s) then Rejected
    else
      var inputValues := s.inputValues.fields;
      var unresolved, safe, blocked := AcceptedTexts(s.unresolved).list, AcceptedTexts(s.safe).list, AcceptedTexts(s.blocked).list;
      var rawSources := GetOrNull(s.sourceSnapshot, SOURCES);
      if !PartitionIsAccepted(s.template, inputValues, unresolved, safe, blocked) || !SourcesAreAccepted(rawSources, inputValues) then Rejected
      else
        var sources := ReadSources(rawSources.items);
        if !EvidenceIsAccepted(s.evidenceSnapshot, sources, s.confirmations.fields, inputValues) then Rejected
        else Planned(Plan(
          s.template, inputValues, safe, blocked, unresolved, sources,
          AcceptedTexts(GetOrNull(s.evidenceSnapshot, PERMITTED_SOURCE_IDS)).list,
          ConfirmationsOf(inputValues)))
  }

  /** A loop that checks every element, then keeps what it reads. */
  method TakeAll<T, U>(raw: seq<T>, accepts: T -> bool, read: T -> U) returns (ok: bool, taken: seq<U>)
    ensures ok <==> forall i :: 0 <= i < |raw| ==> accepts(raw[i])
    ensures ok ==> |taken| == |raw| && forall i :: 0 <= i < |raw| ==> taken[i] == read(raw[i])
  {
    taken := [];
    for i := 0 to |raw|
      invariant |taken| == i && forall k :: 0 <= k < i ==> taken[k] == read(raw[k])
      invariant forall k :: 0 <= k < i ==> accepts(raw[k])
    {
      if !accepts(raw[i]) {
        return false, [];
      }
      taken := taken + [read(raw[i])];
    }
    ok := true;
  }

  /** The loop over the stored sources. */
  method CheckSources(raw: seq<Json>, inputValues: seq<Field>) returns (ok: bool, sources: seq<Source>)
    ensures ok <==> forall i :: 0 <= i < |raw| ==> SourceIsAccepted(raw[i], inputValues)
    ensures ok ==> sources == ReadSources(raw)
  {
    ok, sources := TakeAll(raw, (r: Json) => SourceIsAccepted(r, inputValues), ReadSource);
  }

  /** The loop over the accepted inputs that rebuilds their confirmations. */
  method CheckConfirmations(confirmations: seq<Field>, inputValues: seq<Field>) returns (ok: bool, accepted: seq<Field>)
    ensures ok <==> forall i :: 0 <= i < |inputValues| ==> ConfirmationIsAccepted(confirmations, inputValues[i].key)
    ensures ok ==> accepted == ConfirmationsOf(inputValues)
  {
    accepted := [];
    for i := 0 to |inputValues|
      invariant |accepted| == i
      invariant forall k :: 0 <= k < i ==> accepted[k] == Field(inputValues[k].key, Confirmation(inputValues[k].key))
      invariant forall k :: 0 <= k < i ==> ConfirmationIsAccepted(confirmations, inputValues[k].key)
    {
      var key := inputValues[i].key;
      if !ConfirmationIsAccepted(confirmations, key) {
        return false, [];
      }
      accepted := accepted + [Field(key, Confirmation(key))];
    }
    assert accepted == ConfirmationsOf(inputValues);
    ok := true;
  }

  /** restoreCapturedInputPlan, step by step. */
  method RestoreInputPlan(s: Snapshot) returns (r: PlanResult)
    ensures r == Restore(s)
  {
    hide LedgerIsValid, PartitionIsAccepted, SourceIsAccepted, SameTextSet, HasExactly, NoRepeats, GetOrNull,
         ConfirmationIsAccepted, SourceInputKeys, SourceIds, HasValue, InputKeys, SnapshotSize;
    if !ShapeIsAccepted(s) {
      return Rejected;
    }
    var inputValues := s.inputValues.fields;
    var unresolved, safe, blocked := AcceptedTexts(s.unresolved).list, AcceptedTexts(s.safe).list, AcceptedTexts(s.blocked).list;
    if !PartitionIsAccepted(s.template, inputValues, unresolved, safe, blocked) {
      return Rejected;
    }
    var rawSources := GetOrNull(s.sourceSnapshot, SOURCES);
    if !rawSources.Arr? || |rawSources.items| != |inputValues| {
      return Rejected;
    }
    var ok, sources := CheckSources(rawSources.items, inputValues);
    if !ok || !NoRepeats(SourceInputKeys(sources)) {
      return Rejected;
    }
    var permitted := AcceptedTexts(GetOrNull(s.evidenceSnapshot, PERMITTED_SOURCE_IDS));
    if GetOrNull(s.evidenceSnapshot, MATERIAL_CLAIMS_REQUIRE_SOURCE_REFERENCE) != Bool(true)
      || permitted == NoKeys || !SameTextSet(permitted.list, SourceIds(sources))
      || |s.confirmations.fields| != |inputValues| {
      return Rejected;
    }
    var confirmed, accepted := CheckConfirmations(s.confirmations.fields, inputValues);
    if !confirmed {
      return Rejected;
    }
    r := Planned(Plan(s.template, inputValues, safe, blocked, unresolved, sources, permitted.list, accepted));
  }

  // ----- what a plan says -----

  /** Safe and blocked keys partition the keys of the sections; blocked ones depend on a missing required input. */
  ghost predicate IsExactPartition(template: Template, inputValues: seq<Field>, safe: seq<Text>, blocked: seq<Text>) {
    && (forall i :: 0 <= i < |template.sections| ==> IsPlaced(template, inputValues, template.sections[i], safe, blocked))
    && (forall k :: k in safe || k in blocked ==> k in SectionKeys(template.sections))
  }

  predicate IsPlaced(template: Template, inputValues: seq<Field>, section: SectionContract, safe: seq<Text>, blocked: seq<Text>) {
    && (section.sectionKey in safe <==> section.sectionKey !in blocked)
    && (section.sectionKey in blocked <==> IsBlocked(template, inputValues, section))
  }

  /** The section needs a required input that has no value. */
  predicate IsBlocked(template: Template, inputValues: seq<Field>, section: SectionContract) {
    exists i :: 0 <= i < |section.dependsOnInputs|
      && section.dependsOnInputs[i] in template.requiredInputs
      && !HasInput(inputValues, section.dependsOnInputs[i])
  }

  lemma {:induction false} BlockedExactly(template: Template, inputValues: seq<Field>, i: nat)
    requires NoRepeats(SectionKeys(template.sections)) && i < |template.sections|
    ensures template.sections[i].sectionKey in BlockedKeys(template.sections, Unresolved(template, inputValues))
       <==> IsBlocked(template, inputValues, template.sections[i])
  {
    var missing, key := Unresolved(template, inputValues), template.sections[i].sectionKey;
    assert DependsOn(template.sections[i], missing) <==> IsBlocked(template, inputValues, template.sections[i]);
    if key in BlockedKeys(template.sections, missing) {
      var j :| 0 <= j < |template.sections| && template.sections[j].sectionKey == key && DependsOn(template.sections[j], missing);
      assert SectionKeys(template.sections)[i] == SectionKeys(template.sections)[j];
      assert i == j;
    }
  }

  /** The keys of the sections that are blocked, or of those that are not, in section order. */
  function KeysWhere(template: Template, inputValues: seq<Field>, sections: seq<SectionContract>, blocked: bool): seq<Text> {
    if sections == [] then []
    else
      var rest := KeysWhere(template, inputValues, sections[1..], blocked);
      if IsBlocked(template, inputValues, sections[0]) == blocked then [sections[0].sectionKey] + rest else rest
  }

  lemma {:induction false} BlockedInOrder(template: Template, inputValues: seq<Field>, sections: seq<SectionContract>)
    ensures BlockedKeys(sections, Unresolved(template, inputValues)) == KeysWhere(template, inputValues, sections, true)
  {
    if sections != [] {
      BlockedInOrder(template, inputValues, sections[1..]);
      DependsExactly(template, inputValues, sections[0]);
    }
  }

  lemma {:induction false} DependsExactly(template: Template, inputValues: seq<Field>, section: SectionContract)
    ensures DependsOn(section, Unresolved(template, inputValues)) <==> IsBlocked(template, inputValues, section)
  {
  }

  lemma {:induction false} SafeInOrder(template: Template, inputValues: seq<Field>, sections: seq<SectionContract>, blocked: seq<Text>)
    requires forall i :: 0 <= i < |sections| ==> (sections[i].sectionKey in blocked <==> IsBlocked(template, inputValues, sections[i]))
    ensures Excluding(SectionKeys(sections), blocked) == KeysWhere(template, inputValues, sections, false)
  {
    if sections != [] {
      SafeInOrder(template, inputValues, sections[1..], blocked);
      assert SectionKeys(sections)[1..] == SectionKeys(sections[1..]);
    }
  }

  lemma {:induction false} SectionIsPlaced(template: Template, inputValues: seq<Field>, i: nat)
    requires NoRepeats(SectionKeys(template.sections)) && i < |template.sections|
    ensures var blocked := BlockedKeys(template.sections, Unresolved(template, inputValues));
            IsPlaced(template, inputValues, template.sections[i], Excluding(SectionKeys(template.sections), blocked), blocked)
  {
    BlockedExactly(template, inputValues, i);
    assert SectionKeys(template.sections)[i] in SectionKeys(template.sections);
  }

  /** A plan lists exactly the blocked and exactly the other sections, each in section order. */
  lemma {:induction false} PlanPartitionIsExact(template: Template, raw: Json)
    requires NoRepeats(SectionKeys(template.sections)) && PlanInputs(template, raw).Planned?
    ensures var plan := PlanInputs(template, raw).plan;
            && plan.blocked == KeysWhere(template, plan.inputValues, template.sections, true)
            && plan.safe == KeysWhere(template, plan.inputValues, template.sections, false)
            && IsExactPartition(template, plan.inputValues, plan.safe, plan.blocked)
  {
    var plan := PlanInputs(template, raw).plan;
    forall i | 0 <= i < |template.sections| ensures IsPlaced(template, plan.inputValues, template.sections[i], plan.safe, plan.blocked) {
      SectionIsPlaced(template, plan.inputValues, i);
    }
    BlockedInOrder(template, plan.inputValues, template.sections);
    SafeInOrder(template, plan.inputValues, template.sections, plan.blocked);
    BlockedNoRepeats(template.sections, plan.unresolved);
  }

  /** Supplying more inputs never blocks a section, never makes one less safe and never leaves more unresolved. */
  lemma {:induction false} MoreInputsNeverBlock(template: Template, few: seq<Field>, more: seq<Field>)
    requires PlanInputs(template, Obj(few)).Planned? && PlanInputs(template, Obj(more)).Planned?
    requires forall f :: f in few ==> f in more
    ensures var a, b := PlanInputs(template, Obj(few)).plan, PlanInputs(template, Obj(more)).plan;
            && (forall k :: k in b.unresolved ==> k in a.unresolved)
            && (forall k :: k in b.blocked ==> k in a.blocked)
            && (forall k :: k in a.safe ==> k in b.safe)
  {
    hide HasInput, BlockedKeys, Unresolved, SnapshotSize, SourcesOf, ConfirmationsOf;
    var a, b := PlanInputs(template, Obj(few)).plan, PlanInputs(template, Obj(more)).plan;
    MoreHasInputs(few, more, InputKeys(template));
    forall k | k in b.blocked ensures k in a.blocked {
      FewerAreBlocked(template.sections, b.unresolved, a.unresolved, k);
    }
  }

  lemma {:induction false} MoreHasInputs(few: seq<Field>, more: seq<Field>, allowed: seq<Text>)
    requires forall f :: f in few ==> f in more
    ensures forall k :: HasInput(Select(few, allowed), k) ==> HasInput(Select(more, allowed), k)
  {
    var a, b := Select(few, allowed), Select(more, allowed);
    forall k | HasInput(a, k) ensures HasInput(b, k) {
      var i :| 0 <= i < |a| && a[i].key == k && HasValue(a[i].value);
      assert a[i] in b;
      var j :| 0 <= j < |b| && b[j] == a[i];
    }
  }

  lemma {:induction false} FewerAreBlocked(sections: seq<SectionContract>, few: seq<Text>, more: seq<Text>, key: Text)
    requires forall k :: k in few ==> k in more
    requires key in BlockedKeys(sections, few)
    ensures key in BlockedKeys(sections, more)
  {
    var i :| 0 <= i < |sections| && sections[i].sectionKey == key && DependsOn(sections[i], few);
    var j :| 0 <= j < |sections[i].dependsOnInputs| && sections[i].dependsOnInputs[j] in few;
    assert DependsOn(sections[i], more);
  }

  // ----- every accepted snapshot is a sound plan -----

  lemma {:induction false} SameSetMembers(left: seq<Text>, right: seq<Text>)
    requires NoRepeats(left) && SameTextSet(left, right)
    ensures forall k :: k in right ==> k in left
  {
    SetCover(left, right);
  }

  /** A list without repeats inside a list of the same length covers it. */
  lemma {:induction false} SetCover(left: seq<Text>, right: seq<Text>)
    requires NoRepeats(left) && |left| == |right| && forall i :: 0 <= i < |left| ==> left[i] in right
    ensures forall k :: k in right ==> k in left
  {
    if left != [] {
      var last := left[|left| - 1];
      var p :| 0 <= p < |right| && right[p] == last;
      var rest := right[..p] + right[p + 1..];
      var front := left[..|left| - 1];
      forall i | 0 <= i < |front| ensures front[i] in rest {
        assert front[i] == left[i] && left[i] != last;
        var q :| 0 <= q < |right| && right[q] == left[i];
        assert if q < p then rest[q] == right[q] else rest[q - 1] == right[q];
      }
      SetCover(front, rest);
      forall k | k in right ensures k in left {
        var q :| 0 <= q < |right| && right[q] == k;
        if q == p {
          assert left[|left| - 1] == k;
        } else {
          assert if q < p then rest[q] == right[q] else rest[q - 1] == right[q];
          assert k in rest && k in front;
        }
      }
    }
  }

  /** A source says what the accepted input of its key says. */
  ghost predicate IsFaithfulSource(source: Source, inputValues: seq<Field>) {
    && source.id == INPUT_PREFIX + source.inputKey
    && exists i :: 0 <= i < |inputValues| && inputValues[i].key == source.inputKey && Same(source.value, inputValues[i].value)
  }

  ghost predicate IsSoundPlan(plan: Plan) {
    && IsExactPartition(plan.template, plan.inputValues, plan.safe, plan.blocked)
    && (forall k :: k in plan.unresolved <==> k in plan.template.requiredInputs && !HasInput(plan.inputValues, k))
    && (forall i :: 0 <= i < |plan.inputValues| ==> plan.inputValues[i].key in InputKeys(plan.template) && HasValue(plan.inputValues[i].value))
    && |plan.sources| == |plan.inputValues|
    && (forall i :: 0 <= i < |plan.sources| ==> IsFaithfulSource(plan.sources[i], plan.inputValues))
    && NoRepeats(SourceInputKeys(plan.sources))
    && (forall k :: k in plan.permitted <==> k in SourceIds(plan.sources))
  }

  lemma {:induction false} AcceptedSourceIsFaithful(raw: Json, inputValues: seq<Field>)
    requires IsValue(raw) && IsValue(Obj(inputValues)) && SourceIsAccepted(raw, inputValues)
    ensures IsFaithfulSource(ReadSource(raw), inputValues)
  {
    var key := GetOrNull(raw, INPUT_KEY).text;
    var i :| 0 <= i < |inputValues| && inputValues[i] == Field(key, GetOrNull(Obj(inputValues), key));
    var stored := GetOrNull(raw, VALUE);
    assert HasKey(raw.fields, [ID, INPUT_KEY, SOURCE_TYPE, VALUE][3]);
    var j :| 0 <= j < |raw.fields| && raw.fields[j] == Field(VALUE, stored);
    CanonicalJsonIsFaithful(stored, inputValues[i].value);
  }

  lemma {:induction false} TextItemsNoRepeats(v: Json)
    requires IsTextArray(v)
    ensures NoRepeats(TextItems(v.items))
  {
    forall i, j | 0 <= i < j < |v.items| ensures TextItems(v.items)[i] != TextItems(v.items)[j] {
      assert v.items[i] != v.items[j] && v.items[i] == Str(v.items[i].text) && v.items[j] == Str(v.items[j].text);
    }
  }

  /** Whatever the database returns, a plan that is restored from it is sound. */
  lemma {:induction false} RestoredPlanIsSound(s: Snapshot)
    requires Restore(s).Planned?
    requires IsValue(s.inputValues) && IsValue(s.sourceSnapshot)
    ensures IsSoundPlan(Restore(s).plan)
  {
    var plan := Restore(s).plan;
    var missing := Unresolved(s.template, plan.inputValues);
    var expectedBlocked := BlockedKeys(s.template.sections, missing);
    TextItemsNoRepeats(s.unresolved);
    TextItemsNoRepeats(s.blocked);
    TextItemsNoRepeats(s.safe);
    SameSetMembers(plan.unresolved, missing);
    SameSetMembers(plan.blocked, expectedBlocked);
    SameSetMembers(plan.safe, Excluding(SectionKeys(s.template.sections), expectedBlocked));
    RestoredPartition(s, plan);
    RestoredSources(s, plan);
    var permitted := GetOrNull(s.evidenceSnapshot, PERMITTED_SOURCE_IDS);
    TextItemsNoRepeats(permitted);
    SameSetMembers(plan.permitted, SourceIds(plan.sources));
  }

  lemma {:induction false} RestoredPartition(s: Snapshot, plan: Plan)
    requires LedgerIsValid(s.template) && plan.template == s.template
    requires var expectedBlocked := BlockedKeys(s.template.sections, Unresolved(s.template, plan.inputValues));
             && (forall k :: k in plan.blocked <==> k in expectedBlocked)
             && (forall k :: k in plan.safe <==> k in Excluding(SectionKeys(s.template.sections), expectedBlocked))
    ensures IsExactPartition(plan.template, plan.inputValues, plan.safe, plan.blocked)
  {
    forall i | 0 <= i < |plan.template.sections| ensures IsPlaced(plan.template, plan.inputValues, plan.template.sections[i], plan.safe, plan.blocked) {
      SectionIsPlaced(plan.template, plan.inputValues, i);
    }
    BlockedNoRepeats(plan.template.sections, Unresolved(s.template, plan.inputValues));
  }

  lemma {:induction false} RestoredSources(s: Snapshot, plan: Plan)
    requires IsValue(s.inputValues) && IsValue(s.sourceSnapshot) && s.inputValues.Obj? && s.sourceSnapshot.Obj?
    requires plan.inputValues == s.inputValues.fields
    requires SourcesAreAccepted(GetOrNull(s.sourceSnapshot, SOURCES), plan.inputValues)
    requires plan.sources == ReadSources(GetOrNull(s.sourceSnapshot, SOURCES).items)
    ensures forall i :: 0 <= i < |plan.sources| ==> IsFaithfulSource(plan.sources[i], plan.inputValues)
  {
    hide SourceIsAccepted, IsFaithfulSource, ReadSource, NoRepeats;
    var raw := GetOrNull(s.sourceSnapshot, SOURCES);
    var j :| 0 <= j < |s.sourceSnapshot.fields| && s.sourceSnapshot.fields[j] == Field(SOURCES, raw);
    assert IsValue(s.sourceSnapshot.fields[j].value);
    forall i | 0 <= i < |plan.sources| ensures IsFaithfulSource(plan.sources[i], plan.inputValues) {
      assert IsValue(raw.items[i]);
      AcceptedSourceIsFaithful(raw.items[i], plan.inputValues);
    }
  }

  // ----- a planned input survives its snapshot -----

  function TextValues(texts: seq<Text>): (r: seq<Json>)
    ensures |r| == |texts| && forall i :: 0 <= i < |r| ==> r[i] == Str(texts[i])
  {
    if texts == [] then [] else [Str(texts[0])] + TextValues(texts[1..])
  }

  function SourceValue(source: Source): Json {
    Obj([Field(ID, Str(source.id)), Field(INPUT_KEY, Str(source.inputKey)), Field(SOURCE_TYPE, Str(CONFIRMED_REQUEST_INPUT)), Field(VALUE, source.value)])
  }

  function SourceValues(sources: seq<Source>): (r: seq<Json>)
    ensures |r| == |sources| && forall i :: 0 <= i < |r| ==> r[i] == SourceValue(sources[i])
  {
    if sources == [] then [] else [SourceValue(sources[0])] + SourceValues(sources[1..])
  }

  /** What the accepting request stores for a plan. */
  function SnapshotOf(plan: Plan): Snapshot {
    Snapshot(
      true,
      plan.template,
      Obj(plan.inputValues),
      Obj([Field(SOURCES, Arr(SourceValues(plan.sources)))]),
      Obj([Field(PERMITTED_SOURCE_IDS, Arr(TextValues(plan.permitted))), Field(MATERIAL_CLAIMS_REQUIRE_SOURCE_REFERENCE, Bool(true))]),
      Obj(plan.confirmations),
      Arr(TextValues(plan.unresolved)),
      Arr(TextValues(plan.safe)),
      Arr(TextValues(plan.blocked)))
  }

  predicate AllTrimmed(texts: seq<Text>) {
    forall i :: 0 <= i < |texts| ==> IsTrimmed(texts[i])
  }

  /** The keys that the stored lists carry have no white space at either end. */
  predicate KeysAreTrimmed(plan: Plan) {
    && AllTrimmed(plan.unresolved)
    && AllTrimmed(SectionKeys(plan.template.sections))
    && forall i :: 0 <= i < |plan.inputValues| ==> EndsVisibly(plan.inputValues[i].key)
  }

  predicate EndsVisibly(t: Text) {
    t == [] || !IsWhitespace(t[|t| - 1])
  }

  lemma {:induction false} TextValuesRead(texts: seq<Text>)
    requires NoRepeats(texts)
    ensures AcceptedTexts(Arr(TextValues(texts))) == if AllTrimmed(texts) then Keys(texts) else NoKeys
  {
    var v := Arr(TextValues(texts));
    if AllTrimmed(texts) {
      assert IsTextArray(v);
      assert TextItems(v.items) == texts;
    } else {
      var i :| 0 <= i < |texts| && !IsTrimmed(texts[i]);
      assert v.items[i].text == texts[i];
    }
  }

  lemma {:induction false} SelectKeepsDistinct(requested: seq<Field>, allowed: seq<Text>)
    requires DistinctKeys(requested)
    ensures DistinctKeys(Select(requested, allowed))
  {
    if requested != [] {
      SelectKeepsDistinct(requested[1..], allowed);
      var r := Select(requested[1..], allowed);
      forall i | 0 <= i < |r| ensures r[i].key != requested[0].key {
        assert r[i] in requested[1..];
      }
    }
  }

  lemma {:induction false} MissingNoRepeats(required: seq<Text>, inputValues: seq<Field>)
    requires NoRepeats(required)
    ensures NoRepeats(MissingInputs(required, inputValues))
  {
    if required != [] {
      MissingNoRepeats(required[1..], inputValues);
    }
  }

  lemma {:induction false} InsertNoRepeats(t: Text, sorted: seq<Text>)
    requires NoRepeats(sorted) && t !in sorted
    ensures NoRepeats(InsertText(t, sorted))
  {
    if sorted != [] && !Less(t, sorted[0]) {
      InsertNoRepeats(t, sorted[1..]);
      assert sorted[0] !in sorted[1..];
    }
  }

  lemma {:induction false} SortNoRepeats(texts: seq<Text>)
    requires NoRepeats(texts)
    ensures NoRepeats(SortTexts(texts))
  {
    if texts != [] {
      SortNoRepeats(texts[1..]);
      InsertNoRepeats(texts[0], SortTexts(texts[1..]));
    }
  }

  lemma {:induction false} ExcludingNoRepeats(keys: seq<Text>, excluded: seq<Text>)
    requires NoRepeats(keys)
    ensures NoRepeats(Excluding(keys, excluded))
  {
    if keys != [] {
      ExcludingNoRepeats(keys[1..], excluded);
    }
  }

  lemma {:induction false} BlockedNoRepeats(sections: seq<SectionContract>, missing: seq<Text>)
    requires NoRepeats(SectionKeys(sections))
    ensures NoRepeats(BlockedKeys(sections, missing))
    ensures forall k :: k in BlockedKeys(sections, missing) ==> k in SectionKeys(sections)
  {
    if sections != [] {
      assert SectionKeys(sections)[1..] == SectionKeys(sections[1..]);
      BlockedNoRepeats(sections[1..], missing);
      assert SectionKeys(sections)[0] !in SectionKeys(sections)[1..];
    }
  }

  /** Every list in a plan is free of repeats. */
  lemma {:induction false} PlanListsNoRepeats(template: Template, raw: Json)
    requires LedgerIsValid(template) && IsValue(raw) && PlanInputs(template, raw).Planned?
    ensures var plan := PlanInputs(template, raw).plan;
            && NoRepeats(plan.unresolved) && NoRepeats(plan.blocked) && NoRepeats(plan.safe)
            && NoRepeats(plan.permitted) && DistinctKeys(plan.inputValues)
  {
    var plan := PlanInputs(template, raw).plan;
    assert template.requiredInputs == InputKeys(template)[..|template.requiredInputs|];
    MissingNoRepeats(template.requiredInputs, plan.inputValues);
    SortNoRepeats(MissingInputs(template.requiredInputs, plan.inputValues));
    BlockedNoRepeats(template.sections, plan.unresolved);
    ExcludingNoRepeats(SectionKeys(template.sections), plan.blocked);
    SelectKeepsDistinct(raw.fields, InputKeys(template));
    forall i, j | 0 <= i < j < |plan.permitted| ensures plan.permitted[i] != plan.permitted[j] {
      assert plan.permitted[i] == INPUT_PREFIX + plan.inputValues[i].key;
      assert plan.permitted[j] == INPUT_PREFIX + plan.inputValues[j].key;
      if plan.permitted[i] == plan.permitted[j] {
        CancelPrefix(INPUT_PREFIX, plan.inputValues[i].key, plan.inputValues[j].key);
      }
    }
  }

  /** The lists are readable exactly when the keys are trimmed. */
  lemma {:induction false} TrimmedExactly(template: Template, raw: Json)
    requires LedgerIsValid(template) && IsValue(raw) && PlanInputs(template, raw).Planned?
    ensures var plan := PlanInputs(template, raw).plan;
            KeysAreTrimmed(plan) <==> AllTrimmed(plan.unresolved) && AllTrimmed(plan.blocked) && AllTrimmed(plan.safe) && AllTrimmed(plan.permitted)
  {
    var plan := PlanInputs(template, raw).plan;
    BlockedNoRepeats(template.sections, plan.unresolved);
    TrimmedInParts(SectionKeys(template.sections), plan.safe, plan.blocked);
    forall i | 0 <= i < |plan.permitted| ensures IsTrimmed(plan.permitted[i]) <==> EndsVisibly(plan.inputValues[i].key) {
      PrefixedIsTrimmed(plan.inputValues[i].key);
    }
  }

  lemma {:induction false} TrimmedInParts(keys: seq<Text>, safe: seq<Text>, blocked: seq<Text>)
    requires safe == Excluding(keys, blocked) && forall k :: k in blocked ==> k in keys
    ensures AllTrimmed(keys) <==> AllTrimmed(safe) && AllTrimmed(blocked)
  {
    TrimmedMembers(keys);
    TrimmedMembers(safe);
    TrimmedMembers(blocked);
  }

  lemma {:induction false} TrimmedMembers(texts: seq<Text>)
    ensures AllTrimmed(texts) <==> forall k :: k in texts ==> IsTrimmed(k)
  {
    if forall k :: k in texts ==> IsTrimmed(k) {
      forall i | 0 <= i < |texts| ensures IsTrimmed(texts[i]) {
        assert texts[i] in texts;
      }
    }
  }

  lemma {:induction false} PrefixedIsTrimmed(key: Text)
    ensures IsTrimmed(INPUT_PREFIX + key) <==> EndsVisibly(key)
  {
    var t := INPUT_PREFIX + key;
    assert t[0] == 105;
    assert key == [] ==> t[|t| - 1] == 58;
    assert key != [] ==> t[|t| - 1] == key[|key| - 1];
  }

  lemma {:induction false} GetAt(fields: seq<Field>, i: nat)
    requires DistinctKeys(fields) && i < |fields|
    ensures Get(fields, fields[i].key) == Found(fields[i].value)
  {
    assert HasKey(fields, fields[i].key);
    var r := Get(fields, fields[i].key);
    var j :| 0 <= j < |fields| && fields[j] == Field(fields[i].key, r.value);
    assert i == j;
  }

  lemma {:induction false} NamesDiffer()
    ensures ID != INPUT_KEY && ID != SOURCE_TYPE && ID != VALUE && INPUT_KEY != SOURCE_TYPE && INPUT_KEY != VALUE && SOURCE_TYPE != VALUE
    ensures CONFIRMED != SOURCE_ID && PERMITTED_SOURCE_IDS != MATERIAL_CLAIMS_REQUIRE_SOURCE_REFERENCE
  {
    assert |ID| == 2 && |INPUT_KEY| == 9 && |SOURCE_TYPE| == 11 && |VALUE| == 5;
    assert CONFIRMED[0] != SOURCE_ID[0];
    assert |PERMITTED_SOURCE_IDS| < |MATERIAL_CLAIMS_REQUIRE_SOURCE_REFERENCE|;
  }

  lemma {:induction false} TwoFields(a: Field, b: Field)
    requires a.key != b.key
    ensures var v := Obj([a, b]);
            HasExactly(v, [a.key, b.key]) && HasExactly(v, [b.key, a.key]) && GetOrNull(v, a.key) == a.value && GetOrNull(v, b.key) == b.value
  {
    var fields := [a, b];
    GetAt(fields, 0);
    GetAt(fields, 1);
  }

  lemma {:induction false} FourFields(a: Field, b: Field, c: Field, d: Field)
    requires DistinctKeys([a, b, c, d])
    ensures var v := Obj([a, b, c, d]);
            && HasExactly(v, [a.key, b.key, c.key, d.key])
            && GetOrNull(v, a.key) == a.value && GetOrNull(v, b.key) == b.value
            && GetOrNull(v, c.key) == c.value && GetOrNull(v, d.key) == d.value
  {
    var fields := [a, b, c, d];
    GetAt(fields, 0);
    GetAt(fields, 1);
    GetAt(fields, 2);
    GetAt(fields, 3);
  }

  lemma {:induction false} SourceValueReads(source: Source)
    ensures var v := SourceValue(source);
      && HasExactly(v, [ID, INPUT_KEY, SOURCE_TYPE, VALUE])
      && GetOrNull(v, ID) == Str(source.id) && GetOrNull(v, INPUT_KEY) == Str(source.inputKey)
      && GetOrNull(v, SOURCE_TYPE) == Str(CONFIRMED_REQUEST_INPUT) && GetOrNull(v, VALUE) == source.value
  {
    NamesDiffer();
    FourFields(Field(ID, Str(source.id)), Field(INPUT_KEY, Str(source.inputKey)), Field(SOURCE_TYPE, Str(CONFIRMED_REQUEST_INPUT)), Field(VALUE, source.value));
  }

  lemma {:induction false} StoredSourceIsAccepted(inputValues: seq<Field>, source: Source, i: nat)
    requires DistinctKeys(inputValues) && i < |inputValues|
    requires source == Source(INPUT_PREFIX + inputValues[i].key, inputValues[i].key, inputValues[i].value)
    ensures SourceIsAccepted(SourceValue(source), inputValues) && ReadSource(SourceValue(source)) == source
  {
    GetAt(inputValues, i);
    SourceValueReads(source);
    assert HasKey(inputValues, source.inputKey);
  }

  lemma {:induction false} StoredSourcesAreAccepted(inputValues: seq<Field>)
    requires DistinctKeys(inputValues)
    ensures var sources := SourcesOf(inputValues);
            SourcesAreAccepted(Arr(SourceValues(sources)), inputValues) && ReadSources(SourceValues(sources)) == sources
  {
    var sources := SourcesOf(inputValues);
    var raw := SourceValues(sources);
    forall i | 0 <= i < |raw| ensures SourceIsAccepted(raw[i], inputValues) && ReadSource(raw[i]) == sources[i] {
      StoredSourceIsAccepted(inputValues, sources[i], i);
    }
    assert ReadSources(raw) == sources;
  }

  lemma {:induction false} ConfirmationReads(key: Text)
    ensures HasExactly(Confirmation(key), [CONFIRMED, SOURCE_ID])
    ensures GetOrNull(Confirmation(key), CONFIRMED) == Bool(true)
    ensures GetOrNull(Confirmation(key), SOURCE_ID) == Str(INPUT_PREFIX + key)
  {
    NamesDiffer();
    TwoFields(Field(CONFIRMED, Bool(true)), Field(SOURCE_ID, Str(INPUT_PREFIX + key)));
  }

  lemma {:induction false} StoredConfirmationIsAccepted(confirmations: seq<Field>, key: Text, i: nat)
    requires DistinctKeys(confirmations) && i < |confirmations|
    requires confirmations[i] == Field(key, Confirmation(key))
    ensures ConfirmationIsAccepted(confirmations, key)
  {
    GetAt(confirmations, i);
    ConfirmationReads(key);
  }

  lemma {:induction false} StoredEnvelopes(plan: Plan)
    ensures var s := SnapshotOf(plan);
      && HasExactly(s.sourceSnapshot, [SOURCES])
      && GetOrNull(s.sourceSnapshot, SOURCES) == Arr(SourceValues(plan.sources))
      && HasExactly(s.evidenceSnapshot, [MATERIAL_CLAIMS_REQUIRE_SOURCE_REFERENCE, PERMITTED_SOURCE_IDS])
      && GetOrNull(s.evidenceSnapshot, PERMITTED_SOURCE_IDS) == Arr(TextValues(plan.permitted))
      && GetOrNull(s.evidenceSnapshot, MATERIAL_CLAIMS_REQUIRE_SOURCE_REFERENCE) == Bool(true)
  {
    GetAt(SnapshotOf(plan).sourceSnapshot.fields, 0);
    NamesDiffer();
    TwoFields(Field(PERMITTED_SOURCE_IDS, Arr(TextValues(plan.permitted))), Field(MATERIAL_CLAIMS_REQUIRE_SOURCE_REFERENCE, Bool(true)));
  }

  lemma {:induction false} SameSetReflexive(texts: seq<Text>)
    ensures SameTextSet(texts, texts)
  {
  }

  /**
   Restoring the stored snapshot of a planned input gives back the same plan, exactly
   when the keys are trimmed; otherwise the operation can be accepted but never run.
   */
  lemma {:induction false} RestoreOfPlan(template: Template, raw: Json)
    requires LedgerIsValid(template) && IsValue(raw) && PlanInputs(template, raw).Planned?
    ensures var plan := PlanInputs(template, raw).plan;
            Restore(SnapshotOf(plan)) == if KeysAreTrimmed(plan) then Planned(plan) else Rejected
  {
    var plan := PlanInputs(template, raw).plan;
    PlanListsNoRepeats(template, raw);
    TrimmedExactly(template, raw);
    SelectedAreAllowed(template, raw.fields);
    StoredShape(plan);
    if AllTrimmed(plan.unresolved) && AllTrimmed(plan.safe) && AllTrimmed(plan.blocked) {
      StoredPartitionIsAccepted(plan);
      StoredSourcesAreAccepted(plan.inputValues);
      SameSetReflexive(plan.permitted);
      RestoreOfShape(plan);
    }
  }

  lemma {:induction false} StoredShape(plan: Plan)
    requires LedgerIsValid(plan.template) && SnapshotSize(plan.inputValues) <= MAX_INPUT_SNAPSHOT_BYTES
    requires NoRepeats(plan.unresolved) && NoRepeats(plan.blocked) && NoRepeats(plan.safe) && NoRepeats(plan.permitted)
    requires forall i :: 0 <= i < |plan.inputValues| ==> plan.inputValues[i].key in InputKeys(plan.template) && HasValue(plan.inputValues[i].value)
    ensures ShapeIsAccepted(SnapshotOf(plan)) <==> AllTrimmed(plan.unresolved) && AllTrimmed(plan.safe) && AllTrimmed(plan.blocked)
  {
    StoredListsRead(plan);
    StoredEnvelopes(plan);
  }

  lemma {:induction false} RestoreOfShape(plan: Plan)
    requires DistinctKeys(plan.inputValues) && ShapeIsAccepted(SnapshotOf(plan))
    requires NoRepeats(plan.unresolved) && NoRepeats(plan.blocked) && NoRepeats(plan.safe) && NoRepeats(plan.permitted)
    requires AllTrimmed(plan.unresolved) && AllTrimmed(plan.safe) && AllTrimmed(plan.blocked)
    requires PartitionIsAccepted(plan.template, plan.inputValues, plan.unresolved, plan.safe, plan.blocked)
    requires SourcesAreAccepted(Arr(SourceValues(plan.sources)), plan.inputValues) && ReadSources(SourceValues(plan.sources)) == plan.sources
    requires plan.confirmations == ConfirmationsOf(plan.inputValues) && SameTextSet(plan.permitted, SourceIds(plan.sources))
    ensures Restore(SnapshotOf(plan)) == if AllTrimmed(plan.permitted) then Planned(plan) else Rejected
  {
    StoredListsRead(plan);
    StoredEnvelopes(plan);
    if AllTrimmed(plan.permitted) {
      StoredEvidenceIsAccepted(plan);
    }
  }

  lemma {:induction false} StoredListsRead(plan: Plan)
    requires NoRepeats(plan.unresolved) && NoRepeats(plan.blocked) && NoRepeats(plan.safe) && NoRepeats(plan.permitted)
    ensures var s := SnapshotOf(plan);
      && AcceptedTexts(s.unresolved) == (if AllTrimmed(plan.unresolved) then Keys(plan.unresolved) else NoKeys)
      && AcceptedTexts(s.safe) == (if AllTrimmed(plan.safe) then Keys(plan.safe) else NoKeys)
      && AcceptedTexts(s.blocked) == (if AllTrimmed(plan.blocked) then Keys(plan.blocked) else NoKeys)
      && AcceptedTexts(Arr(TextValues(plan.permitted))) == (if AllTrimmed(plan.permitted) then Keys(plan.permitted) else NoKeys)
  {
    TextValuesRead(plan.unresolved);
    TextValuesRead(plan.safe);
    TextValuesRead(plan.blocked);
    TextValuesRead(plan.permitted);
  }

  lemma {:induction false} StoredPartitionIsAccepted(plan: Plan)
    requires plan.unresolved == Unresolved(plan.template, plan.inputValues)
    requires plan.blocked == BlockedKeys(plan.template.sections, plan.unresolved)
    requires plan.safe == Excluding(SectionKeys(plan.template.sections), plan.blocked)
    ensures PartitionIsAccepted(plan.template, plan.inputValues, plan.unresolved, plan.safe, plan.blocked)
  {
    SameSetReflexive(plan.unresolved);
    SameSetReflexive(plan.safe);
    SameSetReflexive(plan.blocked);
    SafeIsNotBlocked(plan.safe, SectionKeys(plan.template.sections), plan.blocked);
  }

  lemma {:induction false} StoredEvidenceIsAccepted(plan: Plan)
    requires DistinctKeys(plan.inputValues) && plan.confirmations == ConfirmationsOf(plan.inputValues)
    requires SameTextSet(plan.permitted, SourceIds(plan.sources))
    requires AcceptedTexts(Arr(TextValues(plan.permitted))) == Keys(plan.permitted)
    ensures EvidenceIsAccepted(SnapshotOf(plan).evidenceSnapshot, plan.sources, plan.confirmations, plan.inputValues)
  {
    StoredEnvelopes(plan);
    assert DistinctKeys(plan.confirmations);
    forall i | 0 <= i < |plan.inputValues| ensures ConfirmationIsAccepted(plan.confirmations, plan.inputValues[i].key) {
      StoredConfirmationIsAccepted(plan.confirmations, plan.inputValues[i].key, i);
    }
  }

  lemma {:induction false} SelectedAreAllowed(template: Template, requested: seq<Field>)
    ensures var r := Select(requested, InputKeys(template));
            forall i :: 0 <= i < |r| ==> r[i].key in InputKeys(template) && HasValue(r[i].value)
  {
    var r := Select(requested, InputKeys(template));
    forall i | 0 <= i < |r| ensures r[i].key in InputKeys(template) && HasValue(r[i].value) {
      assert r[i] in r;
    }
  }

  lemma {:induction false} SafeIsNotBlocked(safe: seq<Text>, keys: seq<Text>, blocked: seq<Text>)
    requires safe == Excluding(keys, blocked)
    ensures forall i :: 0 <= i < |safe| ==> safe[i] !in blocked
  {
    forall i | 0 <= i < |safe| ensures safe[i] !in blocked {
      assert safe[i] in safe;
    }
  }

  // ----- a restored plan can be stored and restored again -----

  lemma {:induction false} RestoredSourceIsAccepted(raw: Json, inputValues: seq<Field>)
    requires SourceIsAccepted(raw, inputValues)
    ensures SourceIsAccepted(SourceValue(ReadSource(raw)), inputValues) && ReadSource(SourceValue(ReadSource(raw))) == ReadSource(raw)
  {
    SourceValueReads(ReadSource(raw));
  }

  lemma {:induction false} RestoredSourcesAreAccepted(raw: Json, inputValues: seq<Field>)
    requires SourcesAreAccepted(raw, inputValues)
    ensures var sources := ReadSources(raw.items);
            SourcesAreAccepted(Arr(SourceValues(sources)), inputValues) && ReadSources(SourceValues(sources)) == sources
  {
    var sources := ReadSources(raw.items);
    var stored := SourceValues(sources);
    forall i | 0 <= i < |stored| ensures SourceIsAccepted(stored[i], inputValues) && ReadSource(stored[i]) == sources[i] {
      RestoredSourceIsAccepted(raw.items[i], inputValues);
    }
    assert ReadSources(stored) == sources;
  }

  lemma {:induction false} AcceptedTextsAreTrimmed(v: Json)
    requires AcceptedTexts(v).Keys?
    ensures AllTrimmed(AcceptedTexts(v).list) && NoRepeats(AcceptedTexts(v).list)
  {
    TextItemsNoRepeats(v);
  }

  /** Re-checking the snapshot of a restored plan, as the assessment does, never refuses and changes nothing. */
  lemma {:induction false} RestoreIsIdempotent(s: Snapshot)
    requires Restore(s).Planned? && IsValue(s.inputValues)
    ensures Restore(SnapshotOf(Restore(s).plan)) == Restore(s)
  {
    var plan := Restore(s).plan;
    AcceptedTextsAreTrimmed(s.unresolved);
    AcceptedTextsAreTrimmed(s.safe);
    AcceptedTextsAreTrimmed(s.blocked);
    AcceptedTextsAreTrimmed(GetOrNull(s.evidenceSnapshot, PERMITTED_SOURCE_IDS));
    StoredShape(plan);
    RestoredSourcesAreAccepted(GetOrNull(s.sourceSnapshot, SOURCES), plan.inputValues);
    RestoreOfShape(plan);
  }
}
