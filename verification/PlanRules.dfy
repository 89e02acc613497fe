/**
 captured-document-operation.ts, lines 116-467: what planning and restoring decide, said
 without the functions that decide it. A plan keeps exactly the allowed inputs that have a
 value; a snapshot is restored exactly when each of its parts says what its plan says.
 */
module PlanRules {
  import opened Texts
  import opened JsonText
  import opened C = CanonicalJson
  import opened CapturedPlan
  import G = JsonGrammar
  import Utf8

  // ----- planning -----

  /** An input that the template asks for and that has a value somewhere inside it. */
  predicate IsKept(template: Template, f: Field) {
    (f.key in template.requiredInputs || f.key in template.optionalInputs) && SomeCounts(Leaves(f.value))
  }

  /** The kept inputs in their order. */
  predicate AreKept(template: Template, requested: seq<Field>, kept: seq<Field>)
    decreases |requested|
  {
    if requested == [] then kept == []
    else
      var front, last := requested[..|requested| - 1], requested[|requested| - 1];
      if IsKept(template, last) then kept != [] && kept[|kept| - 1] == last && AreKept(template, front, kept[..|kept| - 1])
      else AreKept(template, front, kept)
  }

  predicate HasFact(inputValues: seq<Field>, key: Text) {
    exists i :: 0 <= i < |inputValues| && inputValues[i].key == key && SomeCounts(Leaves(inputValues[i].value))
  }

  /** The required inputs without a value, as often as they are required, in ascending order. */
  ghost predicate AreUnresolved(template: Template, inputValues: seq<Field>, unresolved: seq<Text>) {
    && (forall key :: multiset(unresolved)[key] == if HasFact(inputValues, key) then 0 else multiset(template.requiredInputs)[key])
    && (forall i, j :: 0 <= i < j < |unresolved| ==> !G.Precedes(unresolved[j], unresolved[i]))
  }

  function Reference(key: Text): Text {
    INPUT_PREFIX + key
  }

  predicate IsConfirmation(v: Json, key: Text) {
    v == Obj([Field(CONFIRMED, Bool(true)), Field(SOURCE_ID, Str(Reference(key)))])
  }

  /** Every input is a source of its own name, permitted and confirmed. */
  predicate IsSourced(plan: Plan) {
    && |plan.sources| == |plan.permitted| == |plan.confirmations| == |plan.inputValues|
    && forall i :: 0 <= i < |plan.inputValues| ==>
         var f := plan.inputValues[i];
         && plan.sources[i] == Source(Reference(f.key), f.key, f.value)
         && plan.permitted[i] == Reference(f.key)
         && plan.confirmations[i].key == f.key && IsConfirmation(plan.confirmations[i].value, f.key)
  }

  predicate FitsSnapshot(inputValues: seq<Field>) {
    |Utf8.Encode(Stringify(Obj(inputValues)))| <= 256_000
  }

  ghost predicate IsPlanOf(template: Template, requested: seq<Field>, plan: Plan) {
    && plan.template == template
    && AreKept(template, requested, plan.inputValues) && FitsSnapshot(plan.inputValues)
    && AreUnresolved(template, plan.inputValues, plan.unresolved)
    && IsSourced(plan)
  }

  lemma {:induction false} SelectGrows(front: seq<Field>, last: Field, allowed: seq<Text>)
    ensures Select(front + [last], allowed) == Select(front, allowed) + (if last.key in allowed && HasValue(last.value) then [last] else [])
  {
    hide HasValue;
    if front == [] {
      assert [] + [last] == [last];
    } else {
      assert (front + [last])[1..] == front[1..] + [last];
      SelectGrows(front[1..], last, allowed);
    }
  }

  lemma {:induction false} SelectKeeps(template: Template, requested: seq<Field>, kept: seq<Field>)
    ensures AreKept(template, requested, kept) <==> kept == Select(requested, InputKeys(template))
    decreases |requested|
  {
    hide HasValue, Leaves, SomeCounts, Select;
    if requested == [] {
      assert Select([], InputKeys(template)) == [] by { NothingSelected(InputKeys(template)); }
    } else {
      var front, last := requested[..|requested| - 1], requested[|requested| - 1];
      HasValueExactly(last.value);
      assert requested == front + [last];
      SelectGrows(front, last, InputKeys(template));
      if IsKept(template, last) {
        if kept != [] {
          SelectKeeps(template, front, kept[..|kept| - 1]);
          assert kept == kept[..|kept| - 1] + [kept[|kept| - 1]];
        }
      } else {
        SelectKeeps(template, front, kept);
      }
    }
  }

  lemma {:induction false} NothingSelected(allowed: seq<Text>)
    ensures Select([], allowed) == []
  {
  }

  lemma {:induction false} FactsExactly(inputValues: seq<Field>, key: Text)
    ensures HasFact(inputValues, key) <==> HasInput(inputValues, key)
  {
    hide HasValue, Leaves, SomeCounts;
    forall i | 0 <= i < |inputValues| ensures SomeCounts(Leaves(inputValues[i].value)) <==> HasValue(inputValues[i].value) {
      HasValueExactly(inputValues[i].value);
    }
  }

  lemma {:induction false} MissingCounts(required: seq<Text>, inputValues: seq<Field>, key: Text)
    ensures multiset(MissingInputs(required, inputValues))[key] == if HasInput(inputValues, key) then 0 else multiset(required)[key]
  {
    hide HasInput;
    if required != [] {
      assert required == [required[0]] + required[1..];
      MissingCounts(required[1..], inputValues, key);
    }
  }

  lemma {:induction false} InsertCounts(t: Text, sorted: seq<Text>)
    ensures multiset(InsertText(t, sorted)) == multiset(sorted) + multiset{t}
  {
    if sorted != [] && !Less(t, sorted[0]) {
      InsertCounts(t, sorted[1..]);
      assert sorted == [sorted[0]] + sorted[1..];
    }
  }

  predicate IsAscending(texts: seq<Text>) {
    forall i, j :: 0 <= i < j < |texts| ==> !Less(texts[j], texts[i])
  }

  lemma {:induction false} InsertAscends(t: Text, sorted: seq<Text>)
    requires IsAscending(sorted)
    ensures IsAscending(InsertText(t, sorted))
  {
    hide Less;
    var r := InsertText(t, sorted);
    if sorted == [] {
    } else if Less(t, sorted[0]) {
      forall j | 1 <= j < |r| ensures !Less(r[j], t) {
        if Less(r[j], t) {
          LessIsTransitive(r[j], t, sorted[0]);
          assert r[j] == sorted[j - 1];
          if j == 1 {
            LessIsAsymmetric(t, sorted[0]);
          }
        }
      }
    } else {
      InsertAscends(t, sorted[1..]);
      forall j | 1 <= j < |r| ensures !Less(r[j], r[0]) {
        assert r[j] in InsertText(t, sorted[1..]);
        if r[j] != t {
          var k :| 0 <= k < |sorted[1..]| && sorted[1..][k] == r[j];
          assert sorted[k + 1] == r[j];
        }
      }
    }
  }

  lemma {:induction false} SortIsSorted(texts: seq<Text>)
    ensures multiset(SortTexts(texts)) == multiset(texts) && IsAscending(SortTexts(texts))
  {
    if texts != [] {
      SortIsSorted(texts[1..]);
      InsertCounts(texts[0], SortTexts(texts[1..]));
      InsertAscends(texts[0], SortTexts(texts[1..]));
      assert texts == [texts[0]] + texts[1..];
    }
  }

  lemma {:induction false} UnresolvedIsExact(template: Template, inputValues: seq<Field>)
    ensures AreUnresolved(template, inputValues, Unresolved(template, inputValues))
  {
    hide HasInput, HasFact, G.Precedes, Less;
    var missing := MissingInputs(template.requiredInputs, inputValues);
    var sorted := SortTexts(missing);
    SortIsSorted(missing);
    forall key ensures multiset(sorted)[key] == if HasFact(inputValues, key) then 0 else multiset(template.requiredInputs)[key] {
      MissingCounts(template.requiredInputs, inputValues, key);
      FactsExactly(inputValues, key);
    }
    forall i, j | 0 <= i < j < |sorted| ensures !G.Precedes(sorted[j], sorted[i]) {
      G.LessExactly(sorted[j], sorted[i]);
    }
  }

  /**
   An object is planned exactly when the inputs that it keeps fit the snapshot, and its plan
   keeps them, with a source, a permission and a confirmation for each.
   */
  lemma {:induction false} PlanExactly(template: Template, raw: Json)
    ensures PlanInputs(template, raw).Planned?
       <==> raw.Obj? && exists kept :: AreKept(template, raw.fields, kept) && FitsSnapshot(kept)
    ensures PlanInputs(template, raw).Planned? ==> IsPlanOf(template, raw.fields, PlanInputs(template, raw).plan)
  {
    hide AreKept, Select, FitsSnapshot, SnapshotSize, AreUnresolved, Unresolved, BlockedKeys, IsSourced;
    if raw.Obj? {
      var kept := Select(raw.fields, InputKeys(template));
      SizesAgree(kept);
      SelectKeeps(template, raw.fields, kept);
      UnresolvedIsExact(template, kept);
      if other :| AreKept(template, raw.fields, other) && FitsSnapshot(other) {
        SelectKeeps(template, raw.fields, other);
      }
      if PlanInputs(template, raw).Planned? {
        PlanIsSourced(PlanInputs(template, raw).plan);
      }
    }
  }

  lemma {:induction false} SizesAgree(inputValues: seq<Field>)
    ensures SnapshotSize(inputValues) <= MAX_INPUT_SNAPSHOT_BYTES <==> FitsSnapshot(inputValues)
  {
    hide Stringify, Utf8.Encode;
  }

  lemma {:induction false} PlanIsSourced(plan: Plan)
    requires plan.sources == SourcesOf(plan.inputValues) && plan.permitted == SourceIds(plan.sources)
    requires plan.confirmations == ConfirmationsOf(plan.inputValues)
    ensures IsSourced(plan)
  {
    hide SourcesOf, SourceIds, ConfirmationsOf;
  }

  // ----- restoring -----

  /** The stored list is this list of trimmed texts, none twice. */
  predicate IsTextList(v: Json, texts: seq<Text>) {
    && v.Arr? && |v.items| == |texts|
    && (forall i :: 0 <= i < |texts| ==> v.items[i] == Str(texts[i]) && IsTrimmed(texts[i]))
    && NoRepeats(texts)
  }

  /** Keys are unique, visible and known, and there is a section. */
  predicate IsLedger(template: Template) {
    && template.metadataValid
    && NoRepeats(template.requiredInputs + template.optionalInputs)
    && (forall key :: key in template.requiredInputs + template.optionalInputs ==> IsVisible(key))
    && template.sections != []
    && (forall i, j :: 0 <= i < j < |template.sections| ==> template.sections[i].sectionKey != template.sections[j].sectionKey)
    && (forall i :: 0 <= i < |template.sections| ==>
          && IsVisible(template.sections[i].sectionKey)
          && forall key :: key in template.sections[i].dependsOnInputs ==> key in template.requiredInputs || key in template.optionalInputs)
  }

  /** The section depends on a required input without a value. */
  predicate Waits(template: Template, inputValues: seq<Field>, section: SectionContract) {
    exists key :: key in section.dependsOnInputs && key in template.requiredInputs && !HasFact(inputValues, key)
  }

  ghost predicate IsPartition(template: Template, inputValues: seq<Field>, unresolved: seq<Text>, safe: seq<Text>, blocked: seq<Text>) {
    && (forall key :: key in unresolved <==> key in template.requiredInputs && !HasFact(inputValues, key))
    && (forall key :: key in blocked <==>
          exists i :: 0 <= i < |template.sections| && template.sections[i].sectionKey == key && Waits(template, inputValues, template.sections[i]))
    && (forall key :: key in safe <==>
          exists i :: 0 <= i < |template.sections| && template.sections[i].sectionKey == key && !Waits(template, inputValues, template.sections[i]))
  }

  lemma {:induction false} TextListExactly(v: Json, texts: seq<Text>)
    ensures IsTextList(v, texts) <==> AcceptedTexts(v) == Keys(texts)
  {
    hide IsTrimmed;
    if IsTextList(v, texts) {
      assert IsTextArray(v);
      assert TextItems(v.items) == texts;
    }
    if AcceptedTexts(v) == Keys(texts) {
      TextItemsNoRepeats(v);
      forall i | 0 <= i < |texts| ensures v.items[i] == Str(texts[i]) && IsTrimmed(texts[i]) {
        assert v.items[i].Str? && IsTrimmed(v.items[i].text);
      }
    }
  }

  lemma {:induction false} LedgerExactly(template: Template)
    ensures IsLedger(template) <==> LedgerIsValid(template)
  {
    hide IsVisible;
    var keys, sections := InputKeys(template), SectionKeys(template.sections);
    forall i | 0 <= i < |keys| ensures keys[i] in keys {
    }
    if LedgerIsValid(template) {
      forall i, j | 0 <= i < j < |template.sections| ensures template.sections[i].sectionKey != template.sections[j].sectionKey {
        assert sections[i] != sections[j];
      }
      forall i | 0 <= i < |template.sections| ensures
        forall key :: key in template.sections[i].dependsOnInputs ==> key in template.requiredInputs || key in template.optionalInputs
      {
        assert KnowsInputs(template, template.sections[i]);
      }
    }
    if IsLedger(template) {
      forall i | 0 <= i < |template.sections| ensures KnowsInputs(template, template.sections[i]) {
        forall d | 0 <= d < |template.sections[i].dependsOnInputs| ensures template.sections[i].dependsOnInputs[d] in keys {
          assert template.sections[i].dependsOnInputs[d] in template.sections[i].dependsOnInputs;
        }
      }
    }
  }

  lemma {:induction false} WaitsExactly(template: Template, inputValues: seq<Field>, section: SectionContract)
    ensures Waits(template, inputValues, section) <==> IsBlocked(template, inputValues, section)
  {
    hide HasFact, HasInput;
    forall key ensures HasFact(inputValues, key) <==> HasInput(inputValues, key) {
      FactsExactly(inputValues, key);
    }
    if key :| key in section.dependsOnInputs && key in template.requiredInputs && !HasFact(inputValues, key) {
      var i :| 0 <= i < |section.dependsOnInputs| && section.dependsOnInputs[i] == key;
    }
    if i :| 0 <= i < |section.dependsOnInputs| && section.dependsOnInputs[i] in template.requiredInputs && !HasInput(inputValues, section.dependsOnInputs[i]) {
      assert section.dependsOnInputs[i] in section.dependsOnInputs;
    }
  }

  lemma {:induction false} SameSetExactly(left: seq<Text>, right: seq<Text>)
    requires NoRepeats(left) && NoRepeats(right)
    ensures SameTextSet(left, right) <==> forall key :: key in left <==> key in right
  {
    if SameTextSet(left, right) {
      SameSetMembers(left, right);
    }
    if forall key :: key in left <==> key in right {
      assert ToSet(left) == ToSet(right);
      SetSize(left);
      SetSize(right);
      forall i | 0 <= i < |left| ensures left[i] in right {
        assert left[i] in left;
      }
    }
  }

  /** The keys that the partition expects. */
  lemma {:induction false} ExpectedKeys(template: Template, inputValues: seq<Field>)
    requires NoRepeats(InputKeys(template)) && NoRepeats(SectionKeys(template.sections))
    ensures var missing := Unresolved(template, inputValues);
            var blocked := BlockedKeys(template.sections, missing);
            var safe := Excluding(SectionKeys(template.sections), blocked);
            NoRepeats(missing) && NoRepeats(blocked) && NoRepeats(safe) && IsPartition(template, inputValues, missing, safe, blocked)
  {
    hide Waits, IsBlocked, HasFact, HasInput, DependsOn;
    var missing := Unresolved(template, inputValues);
    assert template.requiredInputs == InputKeys(template)[..|template.requiredInputs|];
    MissingNoRepeats(template.requiredInputs, inputValues);
    SortNoRepeats(MissingInputs(template.requiredInputs, inputValues));
    BlockedNoRepeats(template.sections, missing);
    ExcludingNoRepeats(SectionKeys(template.sections), BlockedKeys(template.sections, missing));
    forall key ensures HasFact(inputValues, key) <==> HasInput(inputValues, key) {
      FactsExactly(inputValues, key);
    }
    ExpectedSections(template, inputValues);
  }

  lemma {:induction false} ExpectedSections(template: Template, inputValues: seq<Field>)
    requires NoRepeats(SectionKeys(template.sections))
    ensures var blocked := BlockedKeys(template.sections, Unresolved(template, inputValues));
      && (forall key :: key in blocked <==>
            exists i :: 0 <= i < |template.sections| && template.sections[i].sectionKey == key && Waits(template, inputValues, template.sections[i]))
      && (forall key :: key in Excluding(SectionKeys(template.sections), blocked) <==>
            exists i :: 0 <= i < |template.sections| && template.sections[i].sectionKey == key && !Waits(template, inputValues, template.sections[i]))
  {
    hide Waits, IsBlocked, DependsOn, Unresolved;
    var missing := Unresolved(template, inputValues);
    var keys := SectionKeys(template.sections);
    forall i | 0 <= i < |template.sections|
      ensures DependsOn(template.sections[i], missing) <==> Waits(template, inputValues, template.sections[i])
      ensures keys[i] in BlockedKeys(template.sections, missing) <==> Waits(template, inputValues, template.sections[i])
    {
      WaitsExactly(template, inputValues, template.sections[i]);
      DependsExactly(template, inputValues, template.sections[i]);
      BlockedExactly(template, inputValues, i);
    }
    forall key | key in keys ensures exists i :: 0 <= i < |template.sections| && template.sections[i].sectionKey == key {
      var i :| 0 <= i < |keys| && keys[i] == key;
    }
  }

  lemma {:induction false} PartitionExactly(template: Template, inputValues: seq<Field>, unresolved: seq<Text>, safe: seq<Text>, blocked: seq<Text>)
    requires NoRepeats(InputKeys(template)) && NoRepeats(SectionKeys(template.sections))
    requires NoRepeats(unresolved) && NoRepeats(safe) && NoRepeats(blocked)
    ensures PartitionIsAccepted(template, inputValues, unresolved, safe, blocked) <==> IsPartition(template, inputValues, unresolved, safe, blocked)
  {
    hide Waits, HasFact, SameTextSet, NoRepeats, Unresolved, BlockedKeys, Excluding, SectionKeys, InputKeys;
    var missing := Unresolved(template, inputValues);
    var expectedBlocked := BlockedKeys(template.sections, missing);
    ExpectedKeys(template, inputValues);
    SameSetExactly(unresolved, missing);
    SameSetExactly(blocked, expectedBlocked);
    SameSetExactly(safe, Excluding(SectionKeys(template.sections), expectedBlocked));
    if IsPartition(template, inputValues, unresolved, safe, blocked) {
      forall i | 0 <= i < |safe| ensures safe[i] !in blocked {
        assert safe[i] in safe;
      }
    }
  }

  predicate HasOnly(v: Json, names: seq<Text>) {
    && v.Obj? && |v.fields| == |names|
    && forall n :: n in names ==> exists i :: 0 <= i < |v.fields| && v.fields[i].key == n
  }

  predicate Says(v: Json, name: Text, value: Json) {
    v.Obj? && exists i :: 0 <= i < |v.fields| && v.fields[i] == Field(name, value)
  }

  /** A stored source: the input of its key, under the name of that key, with the same value. */
  ghost predicate IsStoredSource(v: Json, source: Source, inputValues: seq<Field>) {
    && HasOnly(v, [ID, INPUT_KEY, SOURCE_TYPE, VALUE])
    && SaysSource(v, source)
    && source.id == Reference(source.inputKey)
    && exists i :: 0 <= i < |inputValues| && inputValues[i].key == source.inputKey && Same(source.value, inputValues[i].value)
  }

  ghost predicate AreStoredSources(v: Json, sources: seq<Source>, inputValues: seq<Field>) {
    && v.Arr? && |v.items| == |sources| == |inputValues|
    && (forall i :: 0 <= i < |sources| ==> IsStoredSource(v.items[i], sources[i], inputValues))
    && forall i, j :: 0 <= i < j < |sources| ==> sources[i].inputKey != sources[j].inputKey
  }

  predicate Confirms(v: Json, key: Text) {
    HasOnly(v, [CONFIRMED, SOURCE_ID]) && Says(v, CONFIRMED, Bool(true)) && Says(v, SOURCE_ID, Str(Reference(key)))
  }

  predicate AreConfirmed(stored: Json, inputValues: seq<Field>) {
    && stored.Obj? && |stored.fields| == |inputValues|
    && forall i :: 0 <= i < |inputValues| ==> IsConfirmed(stored.fields, inputValues[i].key)
  }

  predicate IsConfirmed(fields: seq<Field>, key: Text) {
    exists j :: 0 <= j < |fields| && fields[j].key == key && Confirms(fields[j].value, key)
  }

  lemma {:induction false} SaysExactly(v: Json, name: Text, value: Json)
    requires IsValue(v) && value != Null
    ensures Says(v, name, value) <==> GetOrNull(v, name) == value
  {
    if v.Obj? {
      if i :| 0 <= i < |v.fields| && v.fields[i] == Field(name, value) {
        GetAt(v.fields, i);
      }
    }
  }

  lemma {:induction false} HasOnlyExactly(v: Json, names: seq<Text>)
    ensures HasOnly(v, names) <==> HasExactly(v, names)
  {
    if HasOnly(v, names) {
      forall k | 0 <= k < |names| ensures HasKey(v.fields, names[k]) {
        assert names[k] in names;
      }
    }
    if HasExactly(v, names) {
      forall n | n in names ensures exists i :: 0 <= i < |v.fields| && v.fields[i].key == n {
        var k :| 0 <= k < |names| && names[k] == n;
        assert HasKey(v.fields, names[k]);
      }
    }
  }

  /** The value under a name that the object has, null or not. */
  lemma {:induction false} NamedValue(v: Json, name: Text, value: Json)
    requires IsValue(v) && v.Obj? && HasKey(v.fields, name)
    ensures Says(v, name, value) <==> GetOrNull(v, name) == value
    ensures IsValue(GetOrNull(v, name))
  {
    var i :| 0 <= i < |v.fields| && v.fields[i].key == name;
    GetAt(v.fields, i);
    assert v.fields[i] == Field(name, v.fields[i].value) && IsValue(v.fields[i].value);
  }

  lemma {:induction false} FieldNamesHeld(v: Json)
    requires HasExactly(v, [ID, INPUT_KEY, SOURCE_TYPE, VALUE])
    ensures HasKey(v.fields, ID) && HasKey(v.fields, INPUT_KEY) && HasKey(v.fields, SOURCE_TYPE) && HasKey(v.fields, VALUE)
  {
    var names := [ID, INPUT_KEY, SOURCE_TYPE, VALUE];
    assert HasKey(v.fields, names[0]) && HasKey(v.fields, names[1]) && HasKey(v.fields, names[2]) && HasKey(v.fields, names[3]);
  }

  lemma {:induction false} InputsSame(inputValues: seq<Field>, key: Text, value: Json)
    requires IsValue(Obj(inputValues)) && IsValue(value) && HasKey(inputValues, key)
    ensures CanonicalJson(value) == CanonicalJson(GetOrNull(Obj(inputValues), key))
       <==> exists i :: 0 <= i < |inputValues| && inputValues[i].key == key && Same(value, inputValues[i].value)
  {
    hide CanonicalJson, Same;
    var k :| 0 <= k < |inputValues| && inputValues[k].key == key;
    GetAt(inputValues, k);
    CanonicalJsonIsFaithful(value, inputValues[k].value);
    assert forall i :: 0 <= i < |inputValues| && inputValues[i].key == key ==> i == k;
  }

  /** The four names of a stored source, and what it says under them. */
  predicate SaysSource(v: Json, source: Source) {
    && Says(v, ID, Str(source.id)) && Says(v, INPUT_KEY, Str(source.inputKey))
    && Says(v, SOURCE_TYPE, Str(CONFIRMED_REQUEST_INPUT)) && Says(v, VALUE, source.value)
  }

  lemma {:induction false} SaysSourceExactly(v: Json, source: Source)
    requires IsValue(v) && HasExactly(v, [ID, INPUT_KEY, SOURCE_TYPE, VALUE])
    ensures v.Obj? && IsValue(GetOrNull(v, VALUE))
    ensures SaysSource(v, source) <==>
      && GetOrNull(v, ID) == Str(source.id) && GetOrNull(v, INPUT_KEY) == Str(source.inputKey)
      && GetOrNull(v, SOURCE_TYPE) == Str(CONFIRMED_REQUEST_INPUT) && GetOrNull(v, VALUE) == source.value
  {
    hide HasExactly, Says, GetOrNull, IsValue, HasKey;
    ExactlyObject(v, [ID, INPUT_KEY, SOURCE_TYPE, VALUE]);
    FieldNamesHeld(v);
    NamedValue(v, ID, Str(source.id));
    NamedValue(v, INPUT_KEY, Str(source.inputKey));
    NamedValue(v, SOURCE_TYPE, Str(CONFIRMED_REQUEST_INPUT));
    NamedValue(v, VALUE, source.value);
  }

  lemma {:induction false} StoredSourceExactly(v: Json, source: Source, inputValues: seq<Field>)
    requires IsValue(v) && IsValue(Obj(inputValues))
    ensures IsStoredSource(v, source, inputValues) <==> SourceIsAccepted(v, inputValues) && source == ReadSource(v)
  {
    hide HasOnly, HasExactly, SaysSource, GetOrNull, CanonicalJson, Same, IsValue;
    HasOnlyExactly(v, [ID, INPUT_KEY, SOURCE_TYPE, VALUE]);
    if HasExactly(v, [ID, INPUT_KEY, SOURCE_TYPE, VALUE]) {
      SaysSourceExactly(v, source);
      if HasKey(inputValues, source.inputKey) {
        InputsSame(inputValues, source.inputKey, GetOrNull(v, VALUE));
      }
    }
  }

  lemma {:induction false} ExactlyObject(v: Json, names: seq<Text>)
    requires HasExactly(v, names)
    ensures v.Obj?
  {
  }

  lemma {:induction false} StoredSourcesExactly(v: Json, sources: seq<Source>, inputValues: seq<Field>)
    requires IsValue(v) && IsValue(Obj(inputValues))
    ensures AreStoredSources(v, sources, inputValues) <==> SourcesAreAccepted(v, inputValues) && v.Arr? && sources == ReadSources(v.items)
  {
    hide IsStoredSource, SourceIsAccepted, ReadSource, NoRepeats, SourceInputKeys, IsValue;
    if v.Arr? && |v.items| == |sources| {
      ItemsAreValues(v);
      forall i | 0 <= i < |sources|
        ensures IsStoredSource(v.items[i], sources[i], inputValues) <==> SourceIsAccepted(v.items[i], inputValues) && sources[i] == ReadSource(v.items[i])
      {
        StoredSourceExactly(v.items[i], sources[i], inputValues);
      }
      if sources == ReadSources(v.items) {
        KeysRepeatExactly(sources);
      }
    }
  }

  lemma {:induction false} ItemsAreValues(v: Json)
    requires IsValue(v) && v.Arr?
    ensures forall i :: 0 <= i < |v.items| ==> IsValue(v.items[i])
  {
  }

  lemma {:induction false} KeysRepeatExactly(sources: seq<Source>)
    ensures NoRepeats(SourceInputKeys(sources)) <==> forall i, j :: 0 <= i < j < |sources| ==> sources[i].inputKey != sources[j].inputKey
  {
    var keys := SourceInputKeys(sources);
    if NoRepeats(keys) {
      forall i, j | 0 <= i < j < |sources| ensures sources[i].inputKey != sources[j].inputKey {
        assert keys[i] != keys[j];
      }
    }
  }

  lemma {:induction false} ConfirmsExactly(v: Json, key: Text)
    requires IsValue(v)
    ensures Confirms(v, key) <==>
      HasExactly(v, [CONFIRMED, SOURCE_ID]) && GetOrNull(v, CONFIRMED) == Bool(true) && GetOrNull(v, SOURCE_ID) == Str(INPUT_PREFIX + key)
  {
    hide HasOnly, HasExactly, Says, GetOrNull;
    HasOnlyExactly(v, [CONFIRMED, SOURCE_ID]);
    SaysExactly(v, CONFIRMED, Bool(true));
    SaysExactly(v, SOURCE_ID, Str(INPUT_PREFIX + key));
  }

  lemma {:induction false} ConfirmedExactly(stored: Json, inputValues: seq<Field>)
    requires IsValue(stored) && stored.Obj?
    ensures AreConfirmed(stored, inputValues) <==>
      |stored.fields| == |inputValues| && forall i :: 0 <= i < |inputValues| ==> ConfirmationIsAccepted(stored.fields, inputValues[i].key)
  {
    hide IsConfirmed, ConfirmationIsAccepted;
    forall i | 0 <= i < |inputValues|
      ensures ConfirmationIsAccepted(stored.fields, inputValues[i].key) <==> IsConfirmed(stored.fields, inputValues[i].key)
    {
      OneIsConfirmed(stored.fields, inputValues[i].key);
    }
  }

  lemma {:induction false} OneIsConfirmed(fields: seq<Field>, key: Text)
    requires IsValue(Obj(fields))
    ensures ConfirmationIsAccepted(fields, key) <==> IsConfirmed(fields, key)
  {
    hide Confirms, HasExactly;
    if HasKey(fields, key) {
      var k :| 0 <= k < |fields| && fields[k].key == key;
      GetAt(fields, k);
      ConfirmsExactly(fields[k].value, key);
      assert forall i :: 0 <= i < |fields| && fields[i].key == key ==> i == k;
    } else {
      NullIsInexact([CONFIRMED, SOURCE_ID]);
    }
  }

  lemma {:induction false} NullIsInexact(names: seq<Text>)
    ensures !HasExactly(Null, names)
  {
  }

  // ----- the whole snapshot -----

  ghost predicate InputsAreRestored(s: Snapshot, plan: Plan) {
    && plan.template == s.template && s.inputValues == Obj(plan.inputValues) && FitsSnapshot(plan.inputValues)
    && forall i :: 0 <= i < |plan.inputValues| ==> IsKept(s.template, plan.inputValues[i])
  }

  predicate ListsAreRestored(s: Snapshot, plan: Plan) {
    IsTextList(s.unresolved, plan.unresolved) && IsTextList(s.safe, plan.safe) && IsTextList(s.blocked, plan.blocked)
  }

  ghost predicate SourcesAreRestored(s: Snapshot, plan: Plan) {
    && HasOnly(s.sourceSnapshot, [SOURCES])
    && exists list :: Says(s.sourceSnapshot, SOURCES, list) && AreStoredSources(list, plan.sources, plan.inputValues)
  }

  ghost predicate EvidenceIsRestored(s: Snapshot, plan: Plan) {
    && HasOnly(s.evidenceSnapshot, [MATERIAL_CLAIMS_REQUIRE_SOURCE_REFERENCE, PERMITTED_SOURCE_IDS])
    && Says(s.evidenceSnapshot, MATERIAL_CLAIMS_REQUIRE_SOURCE_REFERENCE, Bool(true))
    && (exists list :: Says(s.evidenceSnapshot, PERMITTED_SOURCE_IDS, list) && IsTextList(list, plan.permitted))
    && (forall id :: id in plan.permitted <==> exists i :: 0 <= i < |plan.sources| && plan.sources[i].id == id)
  }

  predicate ConfirmationsAreRestored(s: Snapshot, plan: Plan) {
    && AreConfirmed(s.confirmations, plan.inputValues)
    && |plan.confirmations| == |plan.inputValues|
    && forall i :: 0 <= i < |plan.inputValues| ==>
         plan.confirmations[i].key == plan.inputValues[i].key && IsConfirmation(plan.confirmations[i].value, plan.inputValues[i].key)
  }

  /** Every part of the snapshot says what the plan says. */
  ghost predicate IsSnapshotOf(s: Snapshot, plan: Plan) {
    && s.identityValid && IsLedger(s.template)
    && InputsAreRestored(s, plan) && ListsAreRestored(s, plan)
    && IsPartition(s.template, plan.inputValues, plan.unresolved, plan.safe, plan.blocked)
    && SourcesAreRestored(s, plan) && EvidenceIsRestored(s, plan) && ConfirmationsAreRestored(s, plan)
  }

  lemma {:induction false} RestoredInputs(s: Snapshot, plan: Plan)
    requires s.inputValues == Obj(plan.inputValues) && plan.template == s.template
    ensures InputsAreRestored(s, plan) <==>
      && SnapshotSize(plan.inputValues) <= MAX_INPUT_SNAPSHOT_BYTES
      && forall i :: 0 <= i < |plan.inputValues| ==> plan.inputValues[i].key in InputKeys(s.template) && HasValue(plan.inputValues[i].value)
  {
    hide HasValue, Leaves, SomeCounts, SnapshotSize, FitsSnapshot;
    SizesAgree(plan.inputValues);
    forall i | 0 <= i < |plan.inputValues| ensures SomeCounts(Leaves(plan.inputValues[i].value)) <==> HasValue(plan.inputValues[i].value) {
      HasValueExactly(plan.inputValues[i].value);
    }
  }

  lemma {:induction false} OneName(v: Json, name: Text)
    requires HasExactly(v, [name])
    ensures v.Obj? && HasKey(v.fields, name)
  {
    assert HasKey(v.fields, [name][0]);
  }

  lemma {:induction false} TwoNames(v: Json, a: Text, b: Text)
    requires HasExactly(v, [a, b])
    ensures v.Obj? && HasKey(v.fields, a) && HasKey(v.fields, b)
  {
    assert HasKey(v.fields, [a, b][0]) && HasKey(v.fields, [a, b][1]);
  }

  lemma {:induction false} RestoredSourcesExactly(s: Snapshot, plan: Plan)
    requires IsValue(s.sourceSnapshot) && IsValue(Obj(plan.inputValues))
    ensures SourcesAreRestored(s, plan) <==>
      var list := GetOrNull(s.sourceSnapshot, SOURCES);
      HasExactly(s.sourceSnapshot, [SOURCES]) && SourcesAreAccepted(list, plan.inputValues) && list.Arr? && plan.sources == ReadSources(list.items)
  {
    hide HasOnly, HasExactly, Says, GetOrNull, AreStoredSources, SourcesAreAccepted, IsValue, HasKey;
    HasOnlyExactly(s.sourceSnapshot, [SOURCES]);
    if HasExactly(s.sourceSnapshot, [SOURCES]) {
      OneName(s.sourceSnapshot, SOURCES);
      var list := GetOrNull(s.sourceSnapshot, SOURCES);
      forall other ensures Says(s.sourceSnapshot, SOURCES, other) <==> list == other {
        NamedValue(s.sourceSnapshot, SOURCES, other);
      }
      NamedValue(s.sourceSnapshot, SOURCES, list);
      StoredSourcesExactly(list, plan.sources, plan.inputValues);
    }
  }

  lemma {:induction false} IdsExactly(sources: seq<Source>, id: Text)
    ensures id in SourceIds(sources) <==> exists i :: 0 <= i < |sources| && sources[i].id == id
  {
    if i :| 0 <= i < |sources| && sources[i].id == id {
      assert SourceIds(sources)[i] == id;
    }
  }

  lemma {:induction false} PermittedExactly(permitted: seq<Text>, sources: seq<Source>)
    requires NoRepeats(permitted) && NoRepeats(SourceIds(sources))
    ensures SameTextSet(permitted, SourceIds(sources)) <==> forall id :: id in permitted <==> exists i :: 0 <= i < |sources| && sources[i].id == id
  {
    hide SameTextSet, NoRepeats, SourceIds;
    SameSetExactly(permitted, SourceIds(sources));
    forall id ensures id in SourceIds(sources) <==> exists i :: 0 <= i < |sources| && sources[i].id == id {
      IdsExactly(sources, id);
    }
  }

  lemma {:induction false} AcceptedIds(raw: Json, inputValues: seq<Field>)
    requires SourcesAreAccepted(raw, inputValues)
    ensures NoRepeats(SourceIds(ReadSources(raw.items)))
  {
    hide SourceIsAccepted, GetOrNull;
    var sources := ReadSources(raw.items);
    var keys, ids := SourceInputKeys(sources), SourceIds(sources);
    forall i, j | 0 <= i < j < |ids| ensures ids[i] != ids[j] {
      assert keys[i] != keys[j];
      if ids[i] == ids[j] {
        CancelPrefix(INPUT_PREFIX, keys[i], keys[j]);
      }
    }
  }

  lemma {:induction false} RestoredEvidenceExactly(s: Snapshot, plan: Plan)
    requires IsValue(s.evidenceSnapshot) && NoRepeats(SourceIds(plan.sources))
    ensures EvidenceIsRestored(s, plan) <==>
      var permitted := AcceptedTexts(GetOrNull(s.evidenceSnapshot, PERMITTED_SOURCE_IDS));
      && HasExactly(s.evidenceSnapshot, [MATERIAL_CLAIMS_REQUIRE_SOURCE_REFERENCE, PERMITTED_SOURCE_IDS])
      && GetOrNull(s.evidenceSnapshot, MATERIAL_CLAIMS_REQUIRE_SOURCE_REFERENCE) == Bool(true)
      && permitted == Keys(plan.permitted) && SameTextSet(plan.permitted, SourceIds(plan.sources))
  {
    hide HasOnly, HasExactly, Says, GetOrNull, IsTextList, AcceptedTexts, SameTextSet, SourceIds, IsValue, HasKey, NoRepeats;
    var names := [MATERIAL_CLAIMS_REQUIRE_SOURCE_REFERENCE, PERMITTED_SOURCE_IDS];
    HasOnlyExactly(s.evidenceSnapshot, names);
    if HasExactly(s.evidenceSnapshot, names) {
      TwoNames(s.evidenceSnapshot, names[0], names[1]);
      SaysExactly(s.evidenceSnapshot, names[0], Bool(true));
      var list := GetOrNull(s.evidenceSnapshot, PERMITTED_SOURCE_IDS);
      forall other ensures Says(s.evidenceSnapshot, PERMITTED_SOURCE_IDS, other) <==> list == other {
        NamedValue(s.evidenceSnapshot, PERMITTED_SOURCE_IDS, other);
      }
      TextListExactly(list, plan.permitted);
      if IsTextList(list, plan.permitted) {
        ListHasNoRepeats(list, plan.permitted);
        PermittedExactly(plan.permitted, plan.sources);
      }
    }
  }

  lemma {:induction false} ListHasNoRepeats(v: Json, texts: seq<Text>)
    requires IsTextList(v, texts)
    ensures NoRepeats(texts)
  {
  }

  lemma {:induction false} ConfirmationsRebuilt(plan: Plan)
    ensures plan.confirmations == ConfirmationsOf(plan.inputValues) <==>
      && |plan.confirmations| == |plan.inputValues|
      && forall i :: 0 <= i < |plan.inputValues| ==>
           plan.confirmations[i].key == plan.inputValues[i].key && IsConfirmation(plan.confirmations[i].value, plan.inputValues[i].key)
  {
    hide ConfirmationsOf;
  }

  /** The checks of restoring and what they rebuild, side by side. */
  ghost predicate IsRebuilt(s: Snapshot, plan: Plan) {
    var list := GetOrNull(s.sourceSnapshot, SOURCES);
    && s.identityValid && LedgerIsValid(s.template) && plan.template == s.template
    && s.inputValues == Obj(plan.inputValues) && s.confirmations.Obj?
    && AcceptedTexts(s.unresolved) == Keys(plan.unresolved) && AcceptedTexts(s.safe) == Keys(plan.safe) && AcceptedTexts(s.blocked) == Keys(plan.blocked)
    && HasExactly(s.sourceSnapshot, [SOURCES])
    && HasExactly(s.evidenceSnapshot, [MATERIAL_CLAIMS_REQUIRE_SOURCE_REFERENCE, PERMITTED_SOURCE_IDS])
    && SnapshotSize(plan.inputValues) <= MAX_INPUT_SNAPSHOT_BYTES
    && (forall i :: 0 <= i < |plan.inputValues| ==> plan.inputValues[i].key in InputKeys(s.template) && HasValue(plan.inputValues[i].value))
    && PartitionIsAccepted(s.template, plan.inputValues, plan.unresolved, plan.safe, plan.blocked)
    && SourcesAreAccepted(list, plan.inputValues) && plan.sources == ReadSources(list.items)
    && AcceptedTexts(GetOrNull(s.evidenceSnapshot, PERMITTED_SOURCE_IDS)) == Keys(plan.permitted)
    && EvidenceIsAccepted(s.evidenceSnapshot, plan.sources, s.confirmations.fields, plan.inputValues)
    && plan.confirmations == ConfirmationsOf(plan.inputValues)
  }

  lemma {:induction false} RestoreRebuilds(s: Snapshot, plan: Plan)
    ensures Restore(s) == Planned(plan) <==> IsRebuilt(s, plan)
  {
    hide LedgerIsValid, AcceptedTexts, HasExactly, SnapshotSize, InputKeys, HasValue, PartitionIsAccepted, ReadSources, SourceIsAccepted,
         ConfirmationsOf, GetOrNull, NoRepeats, SourceInputKeys, ConfirmationIsAccepted, SameTextSet, SourceIds;
  }

  lemma {:induction false} SnapshotHolds(s: Snapshot, plan: Plan)
    requires IsSnapshotOf(s, plan)
    ensures s.inputValues == Obj(plan.inputValues) && plan.template == s.template && s.confirmations.Obj?
  {
  }

  lemma {:induction false} LedgerKeys(template: Template)
    requires LedgerIsValid(template)
    ensures NoRepeats(InputKeys(template)) && NoRepeats(SectionKeys(template.sections))
  {
  }

  lemma {:induction false} RestoredPartition(s: Snapshot, plan: Plan)
    requires LedgerIsValid(s.template) && ListsAreRestored(s, plan)
    ensures PartitionIsAccepted(s.template, plan.inputValues, plan.unresolved, plan.safe, plan.blocked)
       <==> IsPartition(s.template, plan.inputValues, plan.unresolved, plan.safe, plan.blocked)
  {
    hide PartitionIsAccepted, IsPartition, LedgerIsValid;
    LedgerKeys(s.template);
    PartitionExactly(s.template, plan.inputValues, plan.unresolved, plan.safe, plan.blocked);
  }

  lemma {:induction false} RestoredEvidence(s: Snapshot, plan: Plan)
    requires IsValue(s.evidenceSnapshot) && IsValue(s.confirmations) && s.confirmations.Obj?
    requires NoRepeats(SourceIds(plan.sources))
    requires HasExactly(s.evidenceSnapshot, [MATERIAL_CLAIMS_REQUIRE_SOURCE_REFERENCE, PERMITTED_SOURCE_IDS])
    ensures EvidenceIsRestored(s, plan) && AreConfirmed(s.confirmations, plan.inputValues) <==>
      && AcceptedTexts(GetOrNull(s.evidenceSnapshot, PERMITTED_SOURCE_IDS)) == Keys(plan.permitted)
      && EvidenceIsAccepted(s.evidenceSnapshot, plan.sources, s.confirmations.fields, plan.inputValues)
  {
    hide EvidenceIsRestored, AreConfirmed, AcceptedTexts, GetOrNull, SameTextSet, SourceIds, ConfirmationIsAccepted, HasExactly, NoRepeats, IsValue;
    RestoredEvidenceExactly(s, plan);
    ConfirmedExactly(s.confirmations, plan.inputValues);
  }

  lemma {:induction false} EvidenceNames(s: Snapshot, plan: Plan)
    requires EvidenceIsRestored(s, plan)
    ensures HasExactly(s.evidenceSnapshot, [MATERIAL_CLAIMS_REQUIRE_SOURCE_REFERENCE, PERMITTED_SOURCE_IDS])
  {
    HasOnlyExactly(s.evidenceSnapshot, [MATERIAL_CLAIMS_REQUIRE_SOURCE_REFERENCE, PERMITTED_SOURCE_IDS]);
  }

  /**
   A snapshot is restored to a plan exactly when every part of it says what the plan says:
   the accepted inputs with their values, the partition of the sections, a faithful source
   for each input, and the permissions and confirmations that go with them.
   */
  lemma {:induction false} RestoreExactly(s: Snapshot, plan: Plan)
    requires IsValue(s.inputValues) && IsValue(s.sourceSnapshot) && IsValue(s.evidenceSnapshot) && IsValue(s.confirmations)
    ensures Restore(s) == Planned(plan) <==> IsSnapshotOf(s, plan)
  {
    hide Restore, IsRebuilt, IsSnapshotOf;
    RestoreRebuilds(s, plan);
    if IsRebuilt(s, plan) {
      RebuiltIsSnapshot(s, plan);
    }
    if IsSnapshotOf(s, plan) {
      SnapshotIsRebuilt(s, plan);
    }
  }

  lemma {:induction false} RebuiltIsSnapshot(s: Snapshot, plan: Plan)
    requires IsValue(s.inputValues) && IsValue(s.sourceSnapshot) && IsValue(s.evidenceSnapshot) && IsValue(s.confirmations)
    requires IsRebuilt(s, plan)
    ensures IsSnapshotOf(s, plan)
  {
    hide IsLedger, LedgerIsValid, AcceptedTexts, IsTextList, HasExactly, SnapshotSize, HasValue, PartitionIsAccepted, IsPartition, ReadSources,
         SourcesAreAccepted, SourcesAreRestored, EvidenceIsRestored, EvidenceIsAccepted, InputsAreRestored, ConfirmationsOf, GetOrNull,
         NoRepeats, SourceIds, AreConfirmed, IsConfirmation, IsValue, InputKeys;
    LedgerExactly(s.template);
    TextListExactly(s.unresolved, plan.unresolved);
    TextListExactly(s.safe, plan.safe);
    TextListExactly(s.blocked, plan.blocked);
    ConfirmationsRebuilt(plan);
    RestoredInputs(s, plan);
    RestoredPartition(s, plan);
    var list := GetOrNull(s.sourceSnapshot, SOURCES);
    ListIsArray(list, plan.inputValues);
    RestoredSourcesExactly(s, plan);
    AcceptedIds(list, plan.inputValues);
    RestoredEvidence(s, plan);
  }

  lemma {:induction false} ListIsArray(raw: Json, inputValues: seq<Field>)
    requires SourcesAreAccepted(raw, inputValues)
    ensures raw.Arr?
  {
  }

  lemma {:induction false} SnapshotIsRebuilt(s: Snapshot, plan: Plan)
    requires IsValue(s.inputValues) && IsValue(s.sourceSnapshot) && IsValue(s.evidenceSnapshot) && IsValue(s.confirmations)
    requires IsSnapshotOf(s, plan)
    ensures IsRebuilt(s, plan)
  {
    hide IsLedger, LedgerIsValid, AcceptedTexts, IsTextList, HasExactly, SnapshotSize, HasValue, PartitionIsAccepted, IsPartition, ReadSources,
         SourcesAreAccepted, SourcesAreRestored, EvidenceIsRestored, EvidenceIsAccepted, InputsAreRestored, ConfirmationsOf, GetOrNull,
         NoRepeats, SourceIds, AreConfirmed, IsConfirmation, IsValue, InputKeys;
    SnapshotHolds(s, plan);
    LedgerExactly(s.template);
    TextListExactly(s.unresolved, plan.unresolved);
    TextListExactly(s.safe, plan.safe);
    TextListExactly(s.blocked, plan.blocked);
    ConfirmationsRebuilt(plan);
    RestoredInputs(s, plan);
    RestoredPartition(s, plan);
    RestoredSourcesExactly(s, plan);
    AcceptedIds(GetOrNull(s.sourceSnapshot, SOURCES), plan.inputValues);
    EvidenceNames(s, plan);
    RestoredEvidence(s, plan);
  }
}
