/**
 captured-document-operation.ts, lines 583-766 and 833-1341: deciding whether a
 generated document may be released on the exact-wording pipeline.

 The candidate and the review are arbitrary JSON. The word and bullet
 counts, the markup-aware emptiness test and the instruction-leakage test are
 arbitrary functions, and SHA-256 is an arbitrary function on bytes.
 */
module CapturedAssessment {
  import opened Texts
  import opened JsNumbers
  import opened JsonText
  import opened C = CanonicalJson
  import opened CapturedPlan
  import Utf8

  const SECTIONS: Text := [115, 101, 99, 116, 105, 111, 110, 115]
  const SECTION_KEY: Text := [115, 101, 99, 116, 105, 111, 110, 95, 107, 101, 121]
  const CONTENT: Text := [99, 111, 110, 116, 101, 110, 116]
  const STATE: Text := [115, 116, 97, 116, 101]
  const SOURCE_REFERENCES: Text := [115, 111, 117, 114, 99, 101, 95, 114, 101, 102, 101, 114, 101, 110, 99, 101, 115]
  const TARGET_SHA256: Text := [116, 97, 114, 103, 101, 116, 95, 115, 104, 97, 50, 53, 54]
  const CONTENT_SHA256: Text := [99, 111, 110, 116, 101, 110, 116, 95, 115, 104, 97, 50, 53, 54]
  const CHECKS: Text := [99, 104, 101, 99, 107, 115]
  const EVIDENCE: Text := [101, 118, 105, 100, 101, 110, 99, 101]
  const ISSUES: Text := [105, 115, 115, 117, 101, 115]
  const QUOTE_KEY: Text := [113, 117, 111, 116, 101]
  const CODE: Text := [99, 111, 100, 101]
  const DETAIL: Text := [100, 101, 116, 97, 105, 108]
  const FINAL: Text := [102, 105, 110, 97, 108]
  const NEUTRAL_FALLBACK: Text := [110, 101, 117, 116, 114, 97, 108, 95, 102, 97, 108, 108, 98, 97, 99, 107]
  const OMITTED_OPTIONAL: Text := [111, 109, 105, 116, 116, 101, 100, 95, 111, 112, 116, 105, 111, 110, 97, 108]
  const SYSTEM_FALLBACK: Text := [115, 121, 115, 116, 101, 109, 58, 110, 101, 117, 116, 114, 97, 108, 45, 102, 97, 108, 108, 98, 97, 99, 107]
  const PASS: Text := [112, 97, 115, 115]
  const FAIL: Text := [102, 97, 105, 108]
  const UNCERTAIN: Text := [117, 110, 99, 101, 114, 116, 97, 105, 110]
  const IDENTITY: Text := [105, 100, 101, 110, 116, 105, 116, 121]
  const VALIDATOR_VERSION: Text := [118, 97, 108, 105, 100, 97, 116, 111, 114, 95, 118, 101, 114, 115, 105, 111, 110]
  const VALIDATOR: Text := [99, 97, 112, 116, 117, 114, 101, 100, 45, 111, 117, 116, 112, 117, 116, 45, 118, 97, 108, 105, 100, 97, 116, 111, 114, 46, 50]
  const TEMPLATE_ID: Text := [116, 101, 109, 112, 108, 97, 116, 101, 95, 105, 100]
  const BENCHMARK_VERSION: Text := [98, 101, 110, 99, 104, 109, 97, 114, 107, 95, 118, 101, 114, 115, 105, 111, 110]
  const UNITS: Text := [117, 110, 105, 116, 115]
  const ACCEPTED_SOURCES: Text := [97, 99, 99, 101, 112, 116, 101, 100, 95, 115, 111, 117, 114, 99, 101, 115]
  const CONFIRMATIONS: Text := [99, 111, 110, 102, 105, 114, 109, 97, 116, 105, 111, 110, 115]
  const CONTRACT: Text := [99, 111, 110, 116, 114, 97, 99, 116]
  const GROUNDING_CHECKS: seq<Text> := [
    [109, 97, 116, 101, 114, 105, 97, 108, 95, 99, 108, 97, 105, 109, 95, 115, 117, 112, 112, 111, 114, 116],
    [115, 101, 109, 97, 110, 116, 105, 99, 95, 114, 101, 113, 117, 105, 114, 101, 109, 101, 110, 116, 115],
    [99, 114, 105, 116, 105, 99, 97, 108, 95, 100, 101, 116, 97, 105, 108, 115],
    [115, 111, 117, 114, 99, 101, 95, 99, 111, 110, 102, 108, 105, 99, 116, 115],
    [110, 111, 95, 112, 97, 100, 100, 105, 110, 103, 95, 111, 114, 95, 114, 101, 112, 101, 116, 105, 116, 105, 111, 110],
    [110, 111, 95, 98, 101, 110, 99, 104, 109, 97, 114, 107, 95, 99, 111, 112, 121, 105, 110, 103]]
  const GROUNDING_ISSUE_CODES: seq<Text> := [
    [117, 110, 115, 117, 112, 112, 111, 114, 116, 101, 100, 95, 102, 97, 99, 116],
    [97, 109, 98, 105, 103, 117, 111, 117, 115, 95, 99, 108, 97, 105, 109],
    [99, 111, 110, 102, 108, 105, 99, 116, 105, 110, 103, 95, 115, 111, 117, 114, 99, 101, 115],
    [109, 105, 115, 115, 105, 110, 103, 95, 99, 114, 105, 116, 105, 99, 97, 108, 95, 100, 101, 116, 97, 105, 108],
    [115, 101, 109, 97, 110, 116, 105, 99, 95, 114, 101, 113, 117, 105, 114, 101, 109, 101, 110, 116, 95, 109, 105, 115, 115, 105, 110, 103],
    [114, 101, 112, 101, 116, 105, 116, 105, 111, 110, 95, 111, 114, 95, 112, 97, 100, 100, 105, 110, 103],
    [98, 101, 110, 99, 104, 109, 97, 114, 107, 95, 99, 111, 112, 121, 105, 110, 103]]

  const MAX_SECTION_CONTENT: nat := 40_000
  const MAX_NAME: nat := 160
  const MAX_REFERENCES: nat := 32
  const MAX_FINDINGS: nat := 64
  const MAX_QUOTE: nat := 8_000
  const MAX_DETAIL: nat := 1_000

  /** The parts of the assessment that are content, not logic. */
  datatype Judges = Judges(
    visiblyEmpty: Text -> bool,
    leaksInstructions: Text -> bool,
    words: Text -> nat,
    bullets: Text -> nat,
    sha256: Utf8.Bytes -> Text,
    identityIsValid: Json -> bool,
    templateId: Template -> Text,
    benchmarkVersion: Template -> Text,
    contractJson: Template -> Json)

  datatype SectionState = Final | Fallback | Omitted

  datatype SectionOutput = SectionOutput(sectionKey: Text, content: Text, state: SectionState, references: seq<Text>)

  datatype IssueCode =
    | InvalidOutputShape | SectionSetMismatch | SectionTooLarge | RequiredSectionOmitted | OmittedSectionHasContent
    | BlankOutput | InstructionLeakage | InvalidNeutralFallback | MissingSourceReference | UnsupportedSourceReference
    | BelowMinimumDepth | SectionOrderMismatch | UnresolvedClarification | DuplicateSourceReference | OmittedBytesNotEmpty
    | ReviewRequired | ReviewIdentityMismatch | CheckRejected | EvidenceInvalid | Finding(code: Text)

  datatype Issue = Issue(code: IssueCode, sectionKey: Text)

  function IssueIf(condition: bool, code: IssueCode, key: Text): (r: seq<Issue>)
    ensures r == [] <==> !condition
  {
    if condition then [Issue(code, key)] else []
  }

  // ----- reading the candidate -----

  datatype Parsed = NoSection | Section(section: SectionOutput)

  datatype Candidate = NoCandidate | Candidate(parsed: seq<Parsed>)

  function StateText(state: SectionState): Text {
    match state
    case Final => FINAL
    case Fallback => NEUTRAL_FALLBACK
    case Omitted => OMITTED_OPTIONAL
  }

  predicate AreTexts(v: Json) {
    v.Arr? && forall i :: 0 <= i < |v.items| ==> v.items[i].Str?
  }

  /** asSectionOutput. */
  function AsSectionOutput(v: Json): Parsed {
    var key, content, state, references := GetOrNull(v, SECTION_KEY), GetOrNull(v, CONTENT), GetOrNull(v, STATE), GetOrNull(v, SOURCE_REFERENCES);
    if !key.Str? || !content.Str? || !AreTexts(references) then NoSection
    else if state == Str(FINAL) then Section(SectionOutput(key.text, content.text, Final, TextItems(references.items)))
    else if state == Str(NEUTRAL_FALLBACK) then Section(SectionOutput(key.text, content.text, Fallback, TextItems(references.items)))
    else if state == Str(OMITTED_OPTIONAL) then Section(SectionOutput(key.text, content.text, Omitted, TextItems(references.items)))
    else NoSection
  }

  /** Neither NUL nor a lone surrogate. */
  predicate IsCleanText(t: Text) {
    Utf8.IsWellFormed(t) && forall i :: 0 <= i < |t| ==> t[i] != 0
  }

  predicate IsWithinLimits(section: SectionOutput) {
    && |section.content| <= MAX_SECTION_CONTENT
    && |section.sectionKey| <= MAX_NAME
    && |section.references| <= MAX_REFERENCES
    && (forall i :: 0 <= i < |section.references| ==> |section.references[i]| <= MAX_NAME)
    && IsCleanText(section.content)
  }

  function ReadSection(v: Json): Parsed {
    var parsed := AsSectionOutput(v);
    if HasExactly(v, [SECTION_KEY, CONTENT, STATE, SOURCE_REFERENCES]) && parsed.Section? && IsWithinLimits(parsed.section) then parsed
    else NoSection
  }

  function ReadSections(items: seq<Json>): (r: seq<Parsed>)
    ensures |r| == |items| && forall i :: 0 <= i < |r| ==> r[i] == ReadSection(items[i])
  {
    hide ReadSection;
    if items == [] then []
    else
      var rest := ReadSections(items[1..]);
      assert forall i :: 1 <= i < |items| ==> items[i] == items[1..][i - 1];
      [ReadSection(items[0])] + rest
  }

  function ReadCandidate(template: Template, raw: Json): (r: Candidate)
    ensures r.Candidate? ==> |r.parsed| <= |template.sections|
  {
    var list := GetOrNull(raw, SECTIONS);
    if HasExactly(raw, [SECTIONS]) && list.Arr? && |list.items| <= |template.sections| then Candidate(ReadSections(list.items))
    else NoCandidate
  }

  function Kept(parsed: seq<Parsed>): (r: seq<SectionOutput>)
    ensures |r| <= |parsed|
    ensures |r| == |parsed| ==> forall i :: 0 <= i < |r| ==> parsed[i] == Section(r[i])
    ensures (forall i :: 0 <= i < |parsed| ==> parsed[i].Section?) ==> |r| == |parsed|
  {
    if parsed == [] then [] else Kept(parsed[..|parsed| - 1]) + (match parsed[|parsed| - 1] case Section(s) => [s] case NoSection => [])
  }

  function SectionsOf(c: Candidate): (r: seq<SectionOutput>) {
    match c case Candidate(parsed) => Kept(parsed) case NoCandidate => []
  }

  predicate IsWhole(c: Candidate) {
    c.Candidate? && |SectionsOf(c)| == |c.parsed|
  }

  // ----- the structural check -----

  function OutputKeys(sections: seq<SectionOutput>): (r: seq<Text>)
    ensures |r| == |sections| && forall i :: 0 <= i < |r| ==> r[i] == sections[i].sectionKey
  {
    if sections == [] then [] else [sections[0].sectionKey] + OutputKeys(sections[1..])
  }

  predicate IsExactSectionSet(template: Template, sections: seq<SectionOutput>) {
    && |sections| == |template.sections|
    && NoRepeats(OutputKeys(sections))
    && forall i :: 0 <= i < |template.sections| ==> template.sections[i].sectionKey in OutputKeys(sections)
  }

  /** allowedReferences. */
  predicate IsAllowed(plan: Plan, contract: SectionContract, reference: Text) {
    || (contract.usesNeutralFallback && reference == SYSTEM_FALLBACK)
    || exists i :: 0 <= i < |contract.dependsOnInputs| && IsInputReference(plan, contract.dependsOnInputs[i], reference)
  }

  predicate IsInputReference(plan: Plan, key: Text, reference: Text) {
    HasInput(plan.inputValues, key) && reference == INPUT_PREFIX + key
  }

  function UnsupportedIssues(plan: Plan, contract: SectionContract, references: seq<Text>): (r: seq<Issue>)
    ensures r == [] <==> forall i :: 0 <= i < |references| ==> IsAllowed(plan, contract, references[i])
  {
    if references == [] then []
    else
      var last := references[|references| - 1];
      UnsupportedIssues(plan, contract, references[..|references| - 1]) + IssueIf(!IsAllowed(plan, contract, last), UnsupportedSourceReference, contract.sectionKey)
  }

  function ReferenceIssues(plan: Plan, contract: SectionContract, section: SectionOutput): seq<Issue> {
    if section.state == Fallback then
      IssueIf(!contract.usesNeutralFallback || section.references != [SYSTEM_FALLBACK], InvalidNeutralFallback, contract.sectionKey)
    else
      IssueIf(section.references == [], MissingSourceReference, contract.sectionKey)
      + UnsupportedIssues(plan, contract, section.references)
  }

  function DepthIssues(judges: Judges, contract: SectionContract, section: SectionOutput): seq<Issue> {
    IssueIf(section.state == Final && judges.words(section.content) < contract.minWords, BelowMinimumDepth, contract.sectionKey)
    + IssueIf(section.state == Final && judges.bullets(section.content) < contract.minBullets, BelowMinimumDepth, contract.sectionKey)
  }

  /** The issues of one section against its contract. */
  function SectionIssues(judges: Judges, plan: Plan, contract: SectionContract, section: SectionOutput): seq<Issue> {
    IssueIf(|section.content| > MAX_SECTION_CONTENT, SectionTooLarge, contract.sectionKey)
    + IssueIf(contract.required && section.state == Omitted, RequiredSectionOmitted, contract.sectionKey)
    + if !contract.required && section.state == Omitted then
        IssueIf(IsVisible(section.content) || section.references != [], OmittedSectionHasContent, contract.sectionKey)
      else
        IssueIf(judges.visiblyEmpty(section.content), BlankOutput, contract.sectionKey)
        + IssueIf(judges.leaksInstructions(section.content), InstructionLeakage, contract.sectionKey)
        + ReferenceIssues(plan, contract, section)
        + DepthIssues(judges, contract, section)
  }

  /** `sections.find(...)`. */
  function FindSection(sections: seq<SectionOutput>, key: Text): (r: Parsed)
    ensures r.Section? <==> exists i :: 0 <= i < |sections| && sections[i].sectionKey == key
    ensures r.Section? ==> r.section in sections && r.section.sectionKey == key
  {
    if sections == [] then NoSection
    else if sections[0].sectionKey == key then Section(sections[0])
    else
      assert forall i :: 1 <= i < |sections| ==> sections[i] == sections[1..][i - 1];
      FindSection(sections[1..], key)
  }

  function FoundIssues(judges: Judges, plan: Plan, contract: SectionContract, sections: seq<SectionOutput>): seq<Issue> {
    match FindSection(sections, contract.sectionKey)
    case Section(section) => SectionIssues(judges, plan, contract, section)
    case NoSection => []
  }

  /** Issues of the first `n` contracts, in contract order. */
  function ContractIssues(judges: Judges, plan: Plan, sections: seq<SectionOutput>, n: nat): (r: seq<Issue>)
    requires n <= |plan.template.sections|
  {
    if n == 0 then [] else ContractIssues(judges, plan, sections, n - 1) + FoundIssues(judges, plan, plan.template.sections[n - 1], sections)
  }

  lemma {:induction false} NoContractIssues(judges: Judges, plan: Plan, sections: seq<SectionOutput>, n: nat)
    requires n <= |plan.template.sections|
    ensures ContractIssues(judges, plan, sections, n) == [] <==> forall i :: 0 <= i < n ==> FoundIssues(judges, plan, plan.template.sections[i], sections) == []
  {
    hide FoundIssues;
    if n > 0 {
      NoContractIssues(judges, plan, sections, n - 1);
    }
  }

  /** validateCapturedDocumentOutput on a parsed candidate. */
  function StructuralIssues(judges: Judges, plan: Plan, c: Candidate): seq<Issue> {
    IssueIf(!IsWhole(c), InvalidOutputShape, [])
    + IssueIf(!IsExactSectionSet(plan.template, SectionsOf(c)), SectionSetMismatch, [])
    + ContractIssues(judges, plan, SectionsOf(c), |plan.template.sections|)
  }

  // ----- preparing the exact wording for review -----

  predicate FallbackIsExact(plan: Plan, contract: SectionContract, content: Text) {
    && contract.neutralFallback.NeutralFallback?
    && content == contract.neutralFallback.content
    && forall i :: 0 <= i < |contract.neutralFallback.whenInputsAbsent| ==> !HasInput(plan.inputValues, contract.neutralFallback.whenInputsAbsent[i])
  }

  predicate CitesOnlyInputs(references: seq<Text>) {
    forall i :: 0 <= i < |references| ==> StartsWith(references[i], INPUT_PREFIX)
  }

  function UnitIssues(plan: Plan, contract: SectionContract, section: SectionOutput): seq<Issue> {
    IssueIf(contract.sectionKey != section.sectionKey, SectionOrderMismatch, section.sectionKey)
    + IssueIf(section.sectionKey in plan.blocked, UnresolvedClarification, section.sectionKey)
    + IssueIf(!NoRepeats(section.references), DuplicateSourceReference, section.sectionKey)
    + IssueIf(section.state == Omitted && section.content != [], OmittedBytesNotEmpty, section.sectionKey)
    + if section.state == Fallback then IssueIf(!FallbackIsExact(plan, contract, section.content), InvalidNeutralFallback, section.sectionKey)
      else IssueIf(section.state == Final && !CitesOnlyInputs(section.references), UnsupportedSourceReference, section.sectionKey)
  }

  function AllUnitIssues(plan: Plan, sections: seq<SectionOutput>, n: nat): (r: seq<Issue>)
    requires n <= |sections| <= |plan.template.sections|
  {
    if n == 0 then [] else AllUnitIssues(plan, sections, n - 1) + UnitIssues(plan, plan.template.sections[n - 1], sections[n - 1])
  }

  lemma {:induction false} NoUnitIssues(plan: Plan, sections: seq<SectionOutput>, n: nat)
    requires n <= |sections| <= |plan.template.sections|
    ensures AllUnitIssues(plan, sections, n) == [] <==> forall i :: 0 <= i < n ==> UnitIssues(plan, plan.template.sections[i], sections[i]) == []
  {
    hide UnitIssues;
    if n > 0 {
      NoUnitIssues(plan, sections, n - 1);
    }
  }

  function PrepareIssues(judges: Judges, plan: Plan, c: Candidate): seq<Issue>
    requires |SectionsOf(c)| <= |plan.template.sections|
  {
    StructuralIssues(judges, plan, c)
    + IssueIf(!IsWhole(c), InvalidOutputShape, [])
    + AllUnitIssues(plan, SectionsOf(c), |SectionsOf(c)|)
  }

  /** wordingDigest. */
  function WordingDigest(judges: Judges, t: Text): Text {
    judges.sha256(Utf8.Encode(t))
  }

  function UnitJson(judges: Judges, section: SectionOutput): Json {
    Obj([
      Field(SECTION_KEY, Str(section.sectionKey)),
      Field(CONTENT, Str(section.content)),
      Field(STATE, Str(StateText(section.state))),
      Field(SOURCE_REFERENCES, Arr(TextValues(section.references))),
      Field(CONTENT_SHA256, Str(WordingDigest(judges, section.content)))])
  }

  function UnitsJson(judges: Judges, sections: seq<SectionOutput>): (r: seq<Json>)
    ensures |r| == |sections| && forall i :: 0 <= i < |r| ==> r[i] == UnitJson(judges, sections[i])
  {
    if sections == [] then [] else UnitsJson(judges, sections[..|sections| - 1]) + [UnitJson(judges, sections[|sections| - 1])]
  }

  /** What the review is bound to: the wording, its identity, and everything it was judged against. */
  function Binding(judges: Judges, plan: Plan, sections: seq<SectionOutput>, identity: Json): Json {
    var stored := SnapshotOf(plan);
    Obj([
      Field(IDENTITY, identity),
      Field(VALIDATOR_VERSION, Str(VALIDATOR)),
      Field(TEMPLATE_ID, Str(judges.templateId(plan.template))),
      Field(BENCHMARK_VERSION, Str(judges.benchmarkVersion(plan.template))),
      Field(UNITS, Arr(UnitsJson(judges, sections))),
      Field(ACCEPTED_SOURCES, stored.sourceSnapshot),
      Field(EVIDENCE, stored.evidenceSnapshot),
      Field(CONFIRMATIONS, stored.confirmations),
      Field(CONTRACT, judges.contractJson(plan.template))])
  }

  function TargetDigest(judges: Judges, plan: Plan, sections: seq<SectionOutput>, identity: Json): Text {
    WordingDigest(judges, CanonicalJson(Binding(judges, plan, sections, identity)))
  }

  // ----- reading the review -----

  datatype Evidence = Evidence(sourceId: Text, quote: Text)

  datatype Verdict = NoVerdict | Verdict(sectionKey: Text, contentSha256: Text, allPass: bool, evidence: seq<Evidence>, findings: seq<Text>)

  predicate IsCheckValue(v: Json) {
    v == Str(PASS) || v == Str(FAIL) || v == Str(UNCERTAIN)
  }

  predicate ChecksAreClosed(v: Json) {
    HasExactly(v, GROUNDING_CHECKS) && forall i :: 0 <= i < |v.fields| ==> IsCheckValue(v.fields[i].value)
  }

  predicate IsEvidence(v: Json) {
    && HasExactly(v, [SOURCE_ID, QUOTE_KEY])
    && GetOrNull(v, SOURCE_ID).Str? && |GetOrNull(v, SOURCE_ID).text| <= MAX_NAME
    && GetOrNull(v, QUOTE_KEY).Str? && IsVisible(GetOrNull(v, QUOTE_KEY).text) && |GetOrNull(v, QUOTE_KEY).text| <= MAX_QUOTE
  }

  predicate IsFinding(v: Json) {
    && HasExactly(v, [CODE, DETAIL])
    && GetOrNull(v, CODE).Str? && GetOrNull(v, CODE).text in GROUNDING_ISSUE_CODES
    && GetOrNull(v, DETAIL).Str? && IsVisible(GetOrNull(v, DETAIL).text) && |GetOrNull(v, DETAIL).text| <= MAX_DETAIL
  }

  function TextOf(v: Json): Text {
    if v.Str? then v.text else []
  }

  function ReadEvidence(v: Json): Evidence {
    Evidence(TextOf(GetOrNull(v, SOURCE_ID)), TextOf(GetOrNull(v, QUOTE_KEY)))
  }

  function ReadFinding(v: Json): Text {
    TextOf(GetOrNull(v, CODE))
  }

  function EvidenceItems(items: seq<Json>): (r: seq<Evidence>)
    ensures |r| == |items|
    ensures forall i :: 0 <= i < |r| ==> r[i] == ReadEvidence(items[i])
  {
    if items == [] then []
    else [ReadEvidence(items[0])] + EvidenceItems(items[1..])
  }

  function FindingCodes(items: seq<Json>): (r: seq<Text>)
    ensures |r| == |items| && forall i :: 0 <= i < |r| ==> r[i] == ReadFinding(items[i])
  {
    if items == [] then [] else [ReadFinding(items[0])] + FindingCodes(items[1..])
  }

  predicate VerdictIsClosed(v: Json) {
    && HasExactly(v, [SECTION_KEY, CONTENT_SHA256, CHECKS, EVIDENCE, ISSUES])
    && GetOrNull(v, SECTION_KEY).Str? && GetOrNull(v, CONTENT_SHA256).Str?
    && ChecksAreClosed(GetOrNull(v, CHECKS))
    && GetOrNull(v, EVIDENCE).Arr? && |GetOrNull(v, EVIDENCE).items| <= MAX_FINDINGS
    && GetOrNull(v, ISSUES).Arr? && |GetOrNull(v, ISSUES).items| <= MAX_FINDINGS
    && (forall i :: 0 <= i < |GetOrNull(v, EVIDENCE).items| ==> IsEvidence(GetOrNull(v, EVIDENCE).items[i]))
    && (forall i :: 0 <= i < |GetOrNull(v, ISSUES).items| ==> IsFinding(GetOrNull(v, ISSUES).items[i]))
  }

  predicate AllPass(checks: Json)
    requires checks.Obj?
  {
    forall i :: 0 <= i < |checks.fields| ==> checks.fields[i].value == Str(PASS)
  }

  /** parseGroundingVerdict. */
  function ReadVerdict(v: Json): Verdict {
    if !VerdictIsClosed(v) then NoVerdict
    else Verdict(
      GetOrNull(v, SECTION_KEY).text,
      GetOrNull(v, CONTENT_SHA256).text,
      AllPass(GetOrNull(v, CHECKS)),
      EvidenceItems(GetOrNull(v, EVIDENCE).items),
      FindingCodes(GetOrNull(v, ISSUES).items))
  }

  function ReadVerdicts(items: seq<Json>): (r: seq<Verdict>)
    ensures |r| == |items| && forall i :: 0 <= i < |r| ==> r[i] == ReadVerdict(items[i])
  {
    hide ReadVerdict;
    if items == [] then []
    else
      var rest := ReadVerdicts(items[1..]);
      assert forall i :: 1 <= i < |items| ==> items[i] == items[1..][i - 1];
      [ReadVerdict(items[0])] + rest
  }

  /** The verdicts, when the review lists as many as there are units. */
  function VerdictsOf(review: Json, count: nat): (r: seq<Verdict>)
    ensures r == [] || |r| == count
  {
    var list := GetOrNull(review, SECTIONS);
    if list.Arr? && |list.items| == count then ReadVerdicts(list.items) else []
  }

  predicate VerdictIsFor(judges: Judges, verdict: Verdict, section: SectionOutput) {
    verdict.Verdict? && verdict.sectionKey == section.sectionKey && verdict.contentSha256 == WordingDigest(judges, section.content)
  }

  predicate IsExactReview(judges: Judges, plan: Plan, sections: seq<SectionOutput>, identity: Json, review: Json) {
    var verdicts := VerdictsOf(review, |sections|);
    && HasExactly(review, [TARGET_SHA256, SECTIONS])
    && GetOrNull(review, TARGET_SHA256) == Str(TargetDigest(judges, plan, sections, identity))
    && |verdicts| == |sections|
    && |sections| == |plan.template.sections|
    && forall i :: 0 <= i < |sections| ==> VerdictIsFor(judges, verdicts[i], sections[i])
  }

  /** sourceText: the printed primitive values inside an accepted input. */
  function SourceText(v: Json): seq<Text>
    decreases v, 0
  {
    match v
    case Str(t) => [t]
    case Num(n) => [PrintNumber(n)]
    case Bool(_) => [Stringify(v)]
    case Arr(items) => SourceTexts(items)
    case Obj(fields) => SourceFieldTexts(fields)
    case Null => []
  }

  function SourceTexts(items: seq<Json>): seq<Text>
    decreases items, 1
  {
    if items == [] then [] else SourceText(items[0]) + SourceTexts(items[1..])
  }

  function SourceFieldTexts(fields: seq<Field>): seq<Text>
    decreases fields, 1
  {
    if fields == [] then [] else SourceText(fields[0].value) + SourceFieldTexts(fields[1..])
  }

  predicate Includes(t: Text, quote: Text) {
    exists at: nat :: at <= |t| && OccursAt(t, quote, at)
  }

  predicate Quotes(value: Json, quote: Text) {
    SomeIncludes(SourceText(value), quote)
  }

  predicate SomeIncludes(texts: seq<Text>, quote: Text) {
    exists i :: 0 <= i < |texts| && Includes(texts[i], quote)
  }

  /** The evidence item quotes a source that the section cites. */
  predicate IsQuoted(plan: Plan, section: SectionOutput, item: Evidence) {
    exists i :: 0 <= i < |plan.sources| && QuotesSource(plan.sources[i], section, item)
  }

  predicate QuotesSource(source: Source, section: SectionOutput, item: Evidence) {
    source.id in section.references && source.id == item.sourceId && Quotes(source.value, item.quote)
  }

  predicate HasEvidence(evidence: seq<Evidence>, reference: Text) {
    exists i :: 0 <= i < |evidence| && evidence[i].sourceId == reference
  }

  predicate EvidenceIsValid(plan: Plan, section: SectionOutput, evidence: seq<Evidence>) {
    if section.state == Final then
      && (forall i :: 0 <= i < |evidence| ==> IsQuoted(plan, section, evidence[i]))
      && (forall i :: 0 <= i < |section.references| ==> HasEvidence(evidence, section.references[i]))
    else evidence == []
  }

  function FindingIssues(findings: seq<Text>, key: Text): (r: seq<Issue>)
    ensures |r| == |findings|
  {
    if findings == [] then [] else FindingIssues(findings[..|findings| - 1], key) + [Issue(Finding(findings[|findings| - 1]), key)]
  }

  function VerdictIssues(plan: Plan, section: SectionOutput, verdict: Verdict): seq<Issue>
    requires verdict.Verdict?
  {
    IssueIf(!verdict.allPass, CheckRejected, section.sectionKey)
    + FindingIssues(verdict.findings, section.sectionKey)
    + IssueIf(!EvidenceIsValid(plan, section, verdict.evidence), EvidenceInvalid, section.sectionKey)
  }

  predicate AllVerdicts(verdicts: seq<Verdict>) {
    forall i :: 0 <= i < |verdicts| ==> verdicts[i].Verdict?
  }

  function AllVerdictIssues(plan: Plan, sections: seq<SectionOutput>, verdicts: seq<Verdict>, n: nat): (r: seq<Issue>)
    requires n <= |sections| == |verdicts| && AllVerdicts(verdicts)
    ensures r == [] <==> forall i :: 0 <= i < n ==> VerdictIssues(plan, sections[i], verdicts[i]) == []
  {
    hide VerdictIssues;
    if n == 0 then [] else AllVerdictIssues(plan, sections, verdicts, n - 1) + VerdictIssues(plan, sections[n - 1], verdicts[n - 1])
  }

  // ----- the assessment -----

  datatype Assessment = Refused | Assessed(sections: seq<SectionOutput>, issues: seq<Issue>, complete: bool)

  predicate Passed(a: Assessment) {
    a.Assessed? && a.issues == [] && a.complete
  }

  predicate MayAssess(judges: Judges, plan: Plan, identity: Json) {
    judges.identityIsValid(identity) && plan.template.exactWording && Restore(SnapshotOf(plan)).Planned?
  }

  predicate EvidenceIsComplete(plan: Plan, sections: seq<SectionOutput>, verdicts: seq<Verdict>) {
    && |verdicts| == |sections| && AllVerdicts(verdicts)
    && forall i :: 0 <= i < |sections| ==> EvidenceIsValid(plan, sections[i], verdicts[i].evidence)
  }

  /** validateCapturedDocumentAssessment. */
  function Assess(judges: Judges, plan: Plan, raw: Json, identity: Json, review: Json): Assessment {
    if !MayAssess(judges, plan, identity) then Refused
    else
      var c := ReadCandidate(plan.template, raw);
      var sections := SectionsOf(c);
      var issues := PrepareIssues(judges, plan, c);
      var verdicts := VerdictsOf(review, |sections|);
      if IsExactReview(judges, plan, sections, identity, review) then
        Assessed(sections, issues + AllVerdictIssues(plan, sections, verdicts, |sections|), issues == [] && EvidenceIsComplete(plan, sections, verdicts))
      else
        Assessed(sections, issues + IssueIf(true, if review.Null? then ReviewRequired else ReviewIdentityMismatch, []), false)
  }

  // ----- the same, step by step -----

  /** The pass of validateCapturedDocumentOutput over the contracts, pushing issues. */
  method CollectContractIssues(judges: Judges, plan: Plan, sections: seq<SectionOutput>) returns (issues: seq<Issue>)
    ensures issues == ContractIssues(judges, plan, sections, |plan.template.sections|)
  {
    issues := [];
    for n := 0 to |plan.template.sections|
      invariant issues == ContractIssues(judges, plan, sections, n)
    {
      var found := FoundIssues(judges, plan, plan.template.sections[n], sections);
      issues := issues + found;
    }
  }

  /** The pass of prepareCapturedDocumentAssessment over the sections. */
  method CollectUnitIssues(plan: Plan, sections: seq<SectionOutput>) returns (issues: seq<Issue>)
    requires |sections| <= |plan.template.sections|
    ensures issues == AllUnitIssues(plan, sections, |sections|)
  {
    hide UnitIssues, AllUnitIssues;
    NoUnitsYet(plan, sections);
    issues := [];
    for n := 0 to |sections|
      invariant issues == AllUnitIssues(plan, sections, n)
    {
      var found := UnitIssues(plan, plan.template.sections[n], sections[n]);
      UnitIssuesSoFar(plan, sections, n);
      issues := issues + found;
    }
  }

  lemma {:induction false} NoUnitsYet(plan: Plan, sections: seq<SectionOutput>)
    requires |sections| <= |plan.template.sections|
    ensures AllUnitIssues(plan, sections, 0) == []
  {
  }

  lemma {:induction false} UnitIssuesSoFar(plan: Plan, sections: seq<SectionOutput>, n: nat)
    requires n < |sections| <= |plan.template.sections|
    ensures AllUnitIssues(plan, sections, n + 1) == AllUnitIssues(plan, sections, n) + UnitIssues(plan, plan.template.sections[n], sections[n])
  {
    hide UnitIssues;
  }

  /** The pass of validateCapturedDocumentAssessment over the units and their verdicts. */
  method CollectVerdictIssues(plan: Plan, sections: seq<SectionOutput>, verdicts: seq<Verdict>) returns (issues: seq<Issue>, evidenceValid: bool)
    requires |sections| == |verdicts| && AllVerdicts(verdicts)
    ensures issues == AllVerdictIssues(plan, sections, verdicts, |sections|)
    ensures evidenceValid <==> EvidenceIsComplete(plan, sections, verdicts)
  {
    hide EvidenceIsValid, VerdictIssues;
    issues, evidenceValid := [], true;
    for n := 0 to |sections|
      invariant issues == AllVerdictIssues(plan, sections, verdicts, n)
      invariant evidenceValid <==> forall i :: 0 <= i < n ==> EvidenceIsValid(plan, sections[i], verdicts[i].evidence)
    {
      var found, valid := VerdictIssues(plan, sections[n], verdicts[n]), EvidenceIsValid(plan, sections[n], verdicts[n].evidence);
      issues := issues + found;
      evidenceValid := evidenceValid && valid;
    }
  }

  method PrepareAssessment(judges: Judges, plan: Plan, raw: Json, identity: Json) returns (sections: seq<SectionOutput>, target: Text, issues: seq<Issue>)
    ensures sections == SectionsOf(ReadCandidate(plan.template, raw))
    ensures issues == PrepareIssues(judges, plan, ReadCandidate(plan.template, raw))
    ensures target == TargetDigest(judges, plan, sections, identity)
  {
    var c := ReadCandidate(plan.template, raw);
    sections := SectionsOf(c);
    var structural := CollectContractIssues(judges, plan, sections);
    var unitIssues := CollectUnitIssues(plan, sections);
    target := TargetDigest(judges, plan, sections, identity);
    issues := IssueIf(!IsWhole(c), InvalidOutputShape, [])
      + IssueIf(!IsExactSectionSet(plan.template, sections), SectionSetMismatch, [])
      + structural
      + IssueIf(!IsWhole(c), InvalidOutputShape, [])
      + unitIssues;
  }

  lemma {:induction false} ExactReviewHasVerdicts(judges: Judges, plan: Plan, sections: seq<SectionOutput>, identity: Json, review: Json)
    requires IsExactReview(judges, plan, sections, identity, review)
    ensures |VerdictsOf(review, |sections|)| == |sections| && AllVerdicts(VerdictsOf(review, |sections|))
  {
    var verdicts := VerdictsOf(review, |sections|);
    forall i | 0 <= i < |verdicts| ensures verdicts[i].Verdict? {
      assert VerdictIsFor(judges, verdicts[i], sections[i]);
    }
  }

  /** validateCapturedDocumentAssessment. */
  method ValidateAssessment(judges: Judges, plan: Plan, raw: Json, identity: Json, review: Json) returns (a: Assessment)
    ensures a == Assess(judges, plan, raw, identity, review)
  {
    var allowed := MayAssess(judges, plan, identity);
    if !allowed {
      return Refused;
    }
    var sections, target, issues := PrepareAssessment(judges, plan, raw, identity);
    var exact := IsExactReview(judges, plan, sections, identity, review);
    if !exact {
      return Assessed(sections, issues + IssueIf(true, if review.Null? then ReviewRequired else ReviewIdentityMismatch, []), false);
    }
    ExactReviewHasVerdicts(judges, plan, sections, identity, review);
    var found, evidenceValid := CollectVerdictIssues(plan, sections, VerdictsOf(review, |sections|));
    a := Assessed(sections, issues + found, issues == [] && evidenceValid);
  }

  // ----- what a passed assessment says -----

  /** One section that may be released under its contract. */
  ghost predicate SectionIsReleasable(judges: Judges, plan: Plan, contract: SectionContract, section: SectionOutput) {
    && section.sectionKey == contract.sectionKey
    && section.sectionKey !in plan.blocked
    && NoRepeats(section.references)
    && match section.state
       case Final =>
         && section.references != []
         && (forall i :: 0 <= i < |section.references| ==> CitesDependency(plan, contract, section.references[i]))
         && !judges.visiblyEmpty(section.content) && !judges.leaksInstructions(section.content)
         && judges.words(section.content) >= contract.minWords && judges.bullets(section.content) >= contract.minBullets
       case Fallback =>
         && contract.usesNeutralFallback
         && contract.neutralFallback.NeutralFallback? && section.content == contract.neutralFallback.content
         && (forall key :: key in contract.neutralFallback.whenInputsAbsent ==> !HasInput(plan.inputValues, key))
         && section.references == [SYSTEM_FALLBACK]
         && !judges.visiblyEmpty(section.content) && !judges.leaksInstructions(section.content)
       case Omitted =>
         !contract.required && section.content == [] && section.references == []
  }

  /** The reference names an input that the section depends on and that has a value. */
  ghost predicate CitesDependency(plan: Plan, contract: SectionContract, reference: Text) {
    exists key :: key in contract.dependsOnInputs && HasInput(plan.inputValues, key) && reference == INPUT_PREFIX + key
  }

  ghost predicate AllReleasable(judges: Judges, plan: Plan, sections: seq<SectionOutput>) {
    && |sections| == |plan.template.sections|
    && forall i :: 0 <= i < |sections| ==> SectionIsReleasable(judges, plan, plan.template.sections[i], sections[i])
  }

  /** The item quotes verbatim what a source says that the section cites under the item's identifier. */
  ghost predicate ItemQuotes(plan: Plan, section: SectionOutput, item: Json) {
    exists k :: 0 <= k < |plan.sources| && plan.sources[k].id in section.references
                && GetOrNull(item, SOURCE_ID) == Str(plan.sources[k].id) && SaysVerbatim(plan.sources[k].value, GetOrNull(item, QUOTE_KEY))
  }

  /** The quote stands in a text inside the value, or in the printed form of a number or boolean inside it. */
  ghost predicate SaysVerbatim(value: Json, quote: Json) {
    quote.Str? && SomeSays(Leaves(value), quote.text)
  }

  ghost predicate SomeSays(leaves: seq<Json>, quote: Text) {
    exists i :: 0 <= i < |leaves| && LeafSays(leaves[i], quote)
  }

  ghost predicate LeafSays(leaf: Json, quote: Text) {
    || (leaf.Str? && StandsIn(leaf.text, quote))
    || ((leaf.Num? || leaf.Bool?) && StandsIn(Stringify(leaf), quote))
  }

  ghost predicate StandsIn(t: Text, quote: Text) {
    exists at: nat :: OccursAt(t, quote, at)
  }

  predicate CitesItem(items: seq<Json>, reference: Text) {
    exists e :: 0 <= e < |items| && GetOrNull(items[e], SOURCE_ID) == Str(reference)
  }

  /** The evidence of one section: for final wording nothing but quotes of what it cites, and one for each citation; else none. */
  ghost predicate ListQuotes(plan: Plan, section: SectionOutput, items: seq<Json>) {
    && |items| <= MAX_FINDINGS
    && (forall e :: 0 <= e < |items| ==> IsEvidence(items[e]))
    && if section.state == Final then
         && (forall e :: 0 <= e < |items| ==> ItemQuotes(plan, section, items[e]))
         && (forall r :: 0 <= r < |section.references| ==> CitesItem(items, section.references[r]))
       else items == []
  }

  /** What the review says of one section: its key and digest, "pass" under the name of every check, no issue, and its evidence. */
  ghost predicate ItemApproves(judges: Judges, plan: Plan, section: SectionOutput, v: Json) {
    && HasExactly(v, [SECTION_KEY, CONTENT_SHA256, CHECKS, EVIDENCE, ISSUES])
    && GetOrNull(v, SECTION_KEY) == Str(section.sectionKey)
    && GetOrNull(v, CONTENT_SHA256) == Str(judges.sha256(Utf8.Encode(section.content)))
    && HasExactly(GetOrNull(v, CHECKS), GROUNDING_CHECKS)
    && (forall c :: c in GROUNDING_CHECKS ==> GetOrNull(GetOrNull(v, CHECKS), c) == Str(PASS))
    && GetOrNull(v, ISSUES) == Arr([])
    && GetOrNull(v, EVIDENCE).Arr? && ListQuotes(plan, section, GetOrNull(v, EVIDENCE).items)
  }

  /**
   The review answers for exactly these sections, passes every check, reports nothing, and
   quotes every citation. Where there is no section, nothing is asked of its list.
   */
  ghost predicate IsApproved(judges: Judges, plan: Plan, sections: seq<SectionOutput>, identity: Json, review: Json) {
    && HasExactly(review, [TARGET_SHA256, SECTIONS])
    && GetOrNull(review, TARGET_SHA256) == Str(TargetDigest(judges, plan, sections, identity))
    && |sections| == |plan.template.sections|
    && (sections != [] ==> GetOrNull(review, SECTIONS).Arr? && |GetOrNull(review, SECTIONS).items| == |sections|)
    && forall i :: 0 <= i < |sections| ==> ItemApproves(judges, plan, sections[i], GetOrNull(review, SECTIONS).items[i])
  }

  predicate VerdictApproves(plan: Plan, section: SectionOutput, verdict: Verdict) {
    verdict.Verdict? && verdict.allPass && verdict.findings == [] && EvidenceIsValid(plan, section, verdict.evidence)
  }

  lemma {:induction false} CheckNamesDiffer()
    ensures NoRepeats(GROUNDING_CHECKS)
  {
    assert GROUNDING_CHECKS[0][0] == 109 && GROUNDING_CHECKS[1][1] == 101 && GROUNDING_CHECKS[2][0] == 99;
    assert GROUNDING_CHECKS[3][1] == 111 && GROUNDING_CHECKS[4][3] == 112 && GROUNDING_CHECKS[5][3] == 98;
    assert GROUNDING_CHECKS[1][0] == 115 && GROUNDING_CHECKS[3][0] == 115 && GROUNDING_CHECKS[4][0] == 110 && GROUNDING_CHECKS[5][0] == 110;
  }

  lemma {:induction false} PassesExactly(checks: Json)
    ensures ChecksAreClosed(checks) && AllPass(checks)
       <==> HasExactly(checks, GROUNDING_CHECKS) && forall c :: c in GROUNDING_CHECKS ==> GetOrNull(checks, c) == Str(PASS)
  {
    hide HasExactly, GetOrNull;
    if HasExactly(checks, GROUNDING_CHECKS) {
      CheckNamesDiffer();
      ValuesAreNamed(checks, GROUNDING_CHECKS);
      ExactIsObject(checks, GROUNDING_CHECKS);
      forall c | c in GROUNDING_CHECKS ensures exists i :: 0 <= i < |checks.fields| && checks.fields[i] == Field(c, GetOrNull(checks, c)) {
        var k :| 0 <= k < |GROUNDING_CHECKS| && GROUNDING_CHECKS[k] == c;
      }
    }
  }

  lemma {:induction false} ExactIsObject(v: Json, keys: seq<Text>)
    requires HasExactly(v, keys)
    ensures v.Obj?
  {
  }

  lemma {:induction false} StandsInExactly(t: Text, quote: Text)
    ensures StandsIn(t, quote) <==> Includes(t, quote)
  {
    if at: nat :| OccursAt(t, quote, at) {
      assert at <= |t|;
    }
  }

  lemma {:induction false} IncludesConcat(a: seq<Text>, b: seq<Text>, quote: Text)
    ensures SomeIncludes(a + b, quote) <==> SomeIncludes(a, quote) || SomeIncludes(b, quote)
  {
    hide Includes;
    if i :| 0 <= i < |a| && Includes(a[i], quote) {
      assert Includes((a + b)[i], quote);
    }
    if i :| 0 <= i < |b| && Includes(b[i], quote) {
      assert Includes((a + b)[|a| + i], quote);
    }
  }

  lemma {:induction false} SaysConcat(a: seq<Json>, b: seq<Json>, quote: Text)
    ensures SomeSays(a + b, quote) <==> SomeSays(a, quote) || SomeSays(b, quote)
  {
    hide LeafSays;
    if i :| 0 <= i < |a| && LeafSays(a[i], quote) {
      assert LeafSays((a + b)[i], quote);
    }
    if i :| 0 <= i < |b| && LeafSays(b[i], quote) {
      assert LeafSays((a + b)[|a| + i], quote);
    }
  }

  /** What a value quotes is exactly what stands in one of the primitive values inside it. */
  lemma {:induction false} SourceTextExactly(v: Json, quote: Text)
    ensures SomeIncludes(SourceText(v), quote) <==> SomeSays(Leaves(v), quote)
    decreases v, 0
  {
    hide StandsIn, Includes;
    match v
    case Arr(items) => SourceTextsExactly(items, quote);
    case Obj(fields) => SourceFieldsExactly(fields, quote);
    case Null =>
    case _ =>
      assert Leaves(v) == [v] && |SourceText(v)| == 1;
      StandsInExactly(SourceText(v)[0], quote);
      assert LeafSays(Leaves(v)[0], quote) <==> Includes(SourceText(v)[0], quote);
  }

  lemma {:induction false} SourceTextsExactly(items: seq<Json>, quote: Text)
    ensures SomeIncludes(SourceTexts(items), quote) <==> SomeSays(LeavesOf(items), quote)
    decreases items, 1
  {
    hide StandsIn, Includes, LeafSays;
    if items != [] {
      SourceTextExactly(items[0], quote);
      SourceTextsExactly(items[1..], quote);
      IncludesConcat(SourceText(items[0]), SourceTexts(items[1..]), quote);
      SaysConcat(Leaves(items[0]), LeavesOf(items[1..]), quote);
    }
  }

  lemma {:induction false} SourceFieldsExactly(fields: seq<Field>, quote: Text)
    ensures SomeIncludes(SourceFieldTexts(fields), quote) <==> SomeSays(FieldLeaves(fields), quote)
    decreases fields, 1
  {
    hide StandsIn, Includes, LeafSays;
    if fields != [] {
      SourceTextExactly(fields[0].value, quote);
      SourceFieldsExactly(fields[1..], quote);
      IncludesConcat(SourceText(fields[0].value), SourceFieldTexts(fields[1..]), quote);
      SaysConcat(Leaves(fields[0].value), FieldLeaves(fields[1..]), quote);
    }
  }

  lemma {:induction false} SaysExactly(value: Json, item: Json)
    requires IsEvidence(item)
    ensures Quotes(value, ReadEvidence(item).quote) <==> SaysVerbatim(value, GetOrNull(item, QUOTE_KEY))
  {
    hide HasExactly, GetOrNull, SomeIncludes, SomeSays, SourceText, Leaves, IsVisible;
    SourceTextExactly(value, ReadEvidence(item).quote);
  }

  lemma {:induction false} QuotesExactly(plan: Plan, section: SectionOutput, item: Json)
    requires IsEvidence(item)
    ensures ItemQuotes(plan, section, item) <==> IsQuoted(plan, section, ReadEvidence(item))
  {
    hide HasExactly, GetOrNull, Quotes, SaysVerbatim, IsVisible;
    forall k | 0 <= k < |plan.sources|
      ensures QuotesSource(plan.sources[k], section, ReadEvidence(item))
         <==> plan.sources[k].id in section.references && GetOrNull(item, SOURCE_ID) == Str(plan.sources[k].id)
              && SaysVerbatim(plan.sources[k].value, GetOrNull(item, QUOTE_KEY))
    {
      SaysExactly(plan.sources[k].value, item);
    }
  }

  lemma {:induction false} CitesExactly(items: seq<Json>, reference: Text)
    requires forall e :: 0 <= e < |items| ==> IsEvidence(items[e])
    ensures CitesItem(items, reference) <==> HasEvidence(EvidenceItems(items), reference)
  {
    hide HasExactly, GetOrNull, IsVisible;
    if CitesItem(items, reference) {
      var e :| 0 <= e < |items| && GetOrNull(items[e], SOURCE_ID) == Str(reference);
      assert EvidenceItems(items)[e].sourceId == reference;
    }
    if HasEvidence(EvidenceItems(items), reference) {
      var e :| 0 <= e < |items| && EvidenceItems(items)[e].sourceId == reference;
      assert IsEvidence(items[e]) && GetOrNull(items[e], SOURCE_ID) == Str(reference);
    }
  }

  lemma {:induction false} EvidenceExactly(plan: Plan, section: SectionOutput, items: seq<Json>)
    requires |items| <= MAX_FINDINGS && forall e :: 0 <= e < |items| ==> IsEvidence(items[e])
    ensures ListQuotes(plan, section, items) <==> EvidenceIsValid(plan, section, EvidenceItems(items))
  {
    hide IsEvidence, ItemQuotes, IsQuoted, CitesItem, HasEvidence;
    forall e | 0 <= e < |items| ensures ItemQuotes(plan, section, items[e]) <==> IsQuoted(plan, section, EvidenceItems(items)[e]) {
      QuotesExactly(plan, section, items[e]);
    }
    forall r | 0 <= r < |section.references| ensures CitesItem(items, section.references[r]) <==> HasEvidence(EvidenceItems(items), section.references[r]) {
      CitesExactly(items, section.references[r]);
    }
  }

  lemma {:induction false} NoFindings(items: seq<Json>)
    ensures FindingCodes(items) == [] <==> items == []
  {
  }

  /** What is read from an item of the review approves a section exactly when the item does. */
  lemma {:induction false} ItemExactly(judges: Judges, plan: Plan, section: SectionOutput, v: Json)
    ensures VerdictIsFor(judges, ReadVerdict(v), section) && VerdictApproves(plan, section, ReadVerdict(v))
       <==> ItemApproves(judges, plan, section, v)
  {
    hide HasExactly, GetOrNull, ChecksAreClosed, AllPass, IsEvidence, IsFinding, EvidenceIsValid, ListQuotes, EvidenceItems, FindingCodes;
    PassesExactly(GetOrNull(v, CHECKS));
    if GetOrNull(v, ISSUES).Arr? {
      NoFindings(GetOrNull(v, ISSUES).items);
    }
    if GetOrNull(v, EVIDENCE).Arr? {
      ListIsEvidence(plan, section, GetOrNull(v, EVIDENCE).items);
      if |GetOrNull(v, EVIDENCE).items| <= MAX_FINDINGS && forall e :: 0 <= e < |GetOrNull(v, EVIDENCE).items| ==> IsEvidence(GetOrNull(v, EVIDENCE).items[e]) {
        EvidenceExactly(plan, section, GetOrNull(v, EVIDENCE).items);
      }
    }
  }

  lemma {:induction false} ListIsEvidence(plan: Plan, section: SectionOutput, items: seq<Json>)
    ensures ListQuotes(plan, section, items) ==> |items| <= MAX_FINDINGS && forall e :: 0 <= e < |items| ==> IsEvidence(items[e])
  {
  }

  /** The verdicts that are read from the review approve the sections exactly when the review does. */
  lemma {:induction false} ReviewExactly(judges: Judges, plan: Plan, sections: seq<SectionOutput>, identity: Json, review: Json)
    ensures IsApproved(judges, plan, sections, identity, review)
       <==> IsExactReview(judges, plan, sections, identity, review)
            && forall i :: 0 <= i < |sections| ==> VerdictApproves(plan, sections[i], VerdictsOf(review, |sections|)[i])
  {
    hide HasExactly, GetOrNull, VerdictIsFor, VerdictApproves, ItemApproves, ReadVerdict, TargetDigest;
    var list := GetOrNull(review, SECTIONS);
    if list.Arr? && |list.items| == |sections| {
      forall i | 0 <= i < |sections|
        ensures VerdictIsFor(judges, ReadVerdicts(list.items)[i], sections[i]) && VerdictApproves(plan, sections[i], ReadVerdicts(list.items)[i])
           <==> ItemApproves(judges, plan, sections[i], list.items[i])
      {
        ItemExactly(judges, plan, sections[i], list.items[i]);
      }
    }
  }

  lemma {:induction false} SystemIsNoInput()
    ensures !StartsWith(SYSTEM_FALLBACK, INPUT_PREFIX)
  {
    assert SYSTEM_FALLBACK[..|INPUT_PREFIX|][0] == 115 && INPUT_PREFIX[0] == 105;
  }

  lemma {:induction false} InputReferenceShape(plan: Plan, key: Text, reference: Text)
    requires IsInputReference(plan, key, reference)
    ensures StartsWith(reference, INPUT_PREFIX)
  {
    assert reference[..|INPUT_PREFIX|] == INPUT_PREFIX;
  }

  lemma {:induction false} CitationsExactly(plan: Plan, contract: SectionContract, reference: Text)
    ensures IsAllowed(plan, contract, reference) && StartsWith(reference, INPUT_PREFIX) <==> CitesDependency(plan, contract, reference)
  {
    SystemIsNoInput();
    if CitesDependency(plan, contract, reference) {
      var key :| key in contract.dependsOnInputs && HasInput(plan.inputValues, key) && reference == INPUT_PREFIX + key;
      var i :| 0 <= i < |contract.dependsOnInputs| && contract.dependsOnInputs[i] == key;
      InputReferenceShape(plan, contract.dependsOnInputs[i], reference);
    }
  }

  lemma {:induction false} NothingVisible(t: Text)
    requires t == []
    ensures !IsVisible(t)
  {
  }

  /** A section draws no issue exactly when it is releasable. */
  lemma {:induction false} NoIssuesExactly(judges: Judges, plan: Plan, contract: SectionContract, section: SectionOutput)
    requires |section.content| <= MAX_SECTION_CONTENT && section.sectionKey == contract.sectionKey
    ensures SectionIssues(judges, plan, contract, section) == [] && UnitIssues(plan, contract, section) == []
       <==> SectionIsReleasable(judges, plan, contract, section)
  {
    hide IsAllowed, CitesDependency, StartsWith;
    forall i | 0 <= i < |section.references|
      ensures IsAllowed(plan, contract, section.references[i]) && StartsWith(section.references[i], INPUT_PREFIX)
         <==> CitesDependency(plan, contract, section.references[i])
    {
      CitationsExactly(plan, contract, section.references[i]);
    }
    match section.state
    case Final =>
      if SectionIsReleasable(judges, plan, contract, section) {
        assert CitesOnlyInputs(section.references);
      }
    case Fallback =>
      assert NoRepeats([SYSTEM_FALLBACK]);
    case Omitted =>
      NothingVisible([]);
  }

  lemma {:induction false} FindsByKey(sections: seq<SectionOutput>, i: nat)
    requires i < |sections| && NoRepeats(OutputKeys(sections))
    ensures FindSection(sections, sections[i].sectionKey) == Section(sections[i])
  {
    hide FindSection;
    var r := FindSection(sections, sections[i].sectionKey);
    var j :| 0 <= j < |sections| && sections[j] == r.section;
    assert OutputKeys(sections)[i] == OutputKeys(sections)[j];
  }

  lemma {:induction false} ReadSectionsAreWithinLimits(c: Candidate, template: Template, raw: Json)
    requires c == ReadCandidate(template, raw) && IsWhole(c)
    ensures forall i :: 0 <= i < |SectionsOf(c)| ==> IsWithinLimits(SectionsOf(c)[i])
  {
    forall i | 0 <= i < |SectionsOf(c)| ensures IsWithinLimits(SectionsOf(c)[i]) {
      assert c.parsed[i] == Section(SectionsOf(c)[i]);
    }
  }

  lemma {:induction false} ReleasableFormExactSet(judges: Judges, plan: Plan, sections: seq<SectionOutput>)
    requires NoRepeats(SectionKeys(plan.template.sections)) && AllReleasable(judges, plan, sections)
    ensures IsExactSectionSet(plan.template, sections)
  {
    assert OutputKeys(sections) == SectionKeys(plan.template.sections);
    forall i | 0 <= i < |plan.template.sections| ensures plan.template.sections[i].sectionKey in OutputKeys(sections) {
      assert OutputKeys(sections)[i] == plan.template.sections[i].sectionKey;
    }
  }

  lemma {:induction false} IssuesAtIndex(judges: Judges, plan: Plan, sections: seq<SectionOutput>, i: nat)
    requires i < |sections| == |plan.template.sections| && NoRepeats(OutputKeys(sections))
    requires sections[i].sectionKey == plan.template.sections[i].sectionKey && IsWithinLimits(sections[i])
    ensures FoundIssues(judges, plan, plan.template.sections[i], sections) == [] && UnitIssues(plan, plan.template.sections[i], sections[i]) == []
       <==> SectionIsReleasable(judges, plan, plan.template.sections[i], sections[i])
  {
    FindsByKey(sections, i);
    NoIssuesExactly(judges, plan, plan.template.sections[i], sections[i]);
  }

  /** Preparation finds nothing exactly when the candidate is whole and every section is releasable. */
  lemma {:induction false} PreparationExactly(judges: Judges, plan: Plan, raw: Json)
    requires NoRepeats(SectionKeys(plan.template.sections))
    ensures var c := ReadCandidate(plan.template, raw);
            PrepareIssues(judges, plan, c) == [] <==> IsWhole(c) && AllReleasable(judges, plan, SectionsOf(c))
  {
    var c := ReadCandidate(plan.template, raw);
    var sections := SectionsOf(c);
    NoContractIssues(judges, plan, sections, |plan.template.sections|);
    NoUnitIssues(plan, sections, |sections|);
    if IsWhole(c) {
      ReadSectionsAreWithinLimits(c, plan.template, raw);
      if PrepareIssues(judges, plan, c) == [] {
        forall i | 0 <= i < |sections| ensures SectionIsReleasable(judges, plan, plan.template.sections[i], sections[i]) {
          assert UnitIssues(plan, plan.template.sections[i], sections[i]) == [];
          IssuesAtIndex(judges, plan, sections, i);
        }
      }
      if AllReleasable(judges, plan, sections) {
        ReleasableFormExactSet(judges, plan, sections);
        forall i | 0 <= i < |sections|
          ensures FoundIssues(judges, plan, plan.template.sections[i], sections) == [] && UnitIssues(plan, plan.template.sections[i], sections[i]) == []
        {
          assert SectionIsReleasable(judges, plan, plan.template.sections[i], sections[i]);
          IssuesAtIndex(judges, plan, sections, i);
        }
      }
    }
  }

  predicate IsStateOf(state: SectionState, v: Json) {
    match state
    case Final => v == Str(FINAL)
    case Fallback => v == Str(NEUTRAL_FALLBACK)
    case Omitted => v == Str(OMITTED_OPTIONAL)
  }

  /** The JSON of one section: its four properties and no other one, within the limits, without NUL or lone surrogates. */
  predicate IsSectionJson(v: Json, s: SectionOutput) {
    && HasExactly(v, [SECTION_KEY, CONTENT, STATE, SOURCE_REFERENCES])
    && GetOrNull(v, SECTION_KEY) == Str(s.sectionKey) && |s.sectionKey| <= MAX_NAME
    && GetOrNull(v, CONTENT) == Str(s.content) && |s.content| <= MAX_SECTION_CONTENT
    && Utf8.IsWellFormed(s.content) && 0 !in s.content
    && IsStateOf(s.state, GetOrNull(v, STATE))
    && GetOrNull(v, SOURCE_REFERENCES) == Arr(TextValues(s.references)) && |s.references| <= MAX_REFERENCES
    && forall r :: r in s.references ==> |r| <= MAX_NAME
  }

  /** The candidate is the JSON of these sections and of nothing else. */
  predicate IsCandidate(raw: Json, sections: seq<SectionOutput>) {
    && HasExactly(raw, [SECTIONS])
    && GetOrNull(raw, SECTIONS).Arr? && |GetOrNull(raw, SECTIONS).items| == |sections|
    && forall i :: 0 <= i < |sections| ==> IsSectionJson(GetOrNull(raw, SECTIONS).items[i], sections[i])
  }

  lemma {:induction false} StatesDiffer()
    ensures FINAL != NEUTRAL_FALLBACK && FINAL != OMITTED_OPTIONAL && NEUTRAL_FALLBACK != OMITTED_OPTIONAL
  {
    assert FINAL[0] == 102 && NEUTRAL_FALLBACK[0] == 110 && OMITTED_OPTIONAL[0] == 111;
  }

  lemma {:induction false} TextsRead(v: Json, texts: seq<Text>)
    ensures v == Arr(TextValues(texts)) <==> AreTexts(v) && TextItems(v.items) == texts
  {
    if AreTexts(v) && TextItems(v.items) == texts {
      assert forall i :: 0 <= i < |texts| ==> v.items[i] == TextValues(texts)[i];
      assert v.items == TextValues(texts);
    }
    if v == Arr(TextValues(texts)) {
      assert TextItems(v.items) == texts;
    }
  }

  lemma {:induction false} LimitsExactly(s: SectionOutput)
    ensures IsWithinLimits(s) <==>
      && |s.content| <= MAX_SECTION_CONTENT && |s.sectionKey| <= MAX_NAME && |s.references| <= MAX_REFERENCES
      && (forall r :: r in s.references ==> |r| <= MAX_NAME) && Utf8.IsWellFormed(s.content) && 0 !in s.content
  {
    hide Utf8.IsWellFormed;
    assert (forall r :: r in s.references ==> |r| <= MAX_NAME) <==> forall i :: 0 <= i < |s.references| ==> |s.references[i]| <= MAX_NAME;
  }

  /** A section is read from its JSON and from no other one. */
  lemma {:induction false} ReadSectionExactly(v: Json, s: SectionOutput)
    ensures ReadSection(v) == Section(s) <==> IsSectionJson(v, s)
  {
    hide HasExactly, GetOrNull, IsWithinLimits, Utf8.IsWellFormed, TextItems, TextValues, AreTexts;
    StatesDiffer();
    LimitsExactly(s);
    TextsRead(GetOrNull(v, SOURCE_REFERENCES), s.references);
  }

  lemma {:induction false} CandidateExactly(template: Template, raw: Json, sections: seq<SectionOutput>)
    requires |sections| <= |template.sections|
    ensures IsCandidate(raw, sections) <==> IsWhole(ReadCandidate(template, raw)) && SectionsOf(ReadCandidate(template, raw)) == sections
  {
    hide HasExactly, GetOrNull, ReadSection, IsSectionJson, Kept;
    var c, list := ReadCandidate(template, raw), GetOrNull(raw, SECTIONS);
    if list.Arr? && |list.items| == |sections| {
      forall i | 0 <= i < |sections| ensures ReadSection(list.items[i]) == Section(sections[i]) <==> IsSectionJson(list.items[i], sections[i]) {
        ReadSectionExactly(list.items[i], sections[i]);
      }
    }
    if IsCandidate(raw, sections) {
      forall i | 0 <= i < |c.parsed| ensures c.parsed[i] == Section(sections[i]) {
      }
      assert SectionsOf(c) == sections;
    }
  }

  /** The candidate is the JSON of sections that are releasable one by one in contract order, and the review approves exactly them. */
  ghost predicate IsReleasable(judges: Judges, plan: Plan, raw: Json, identity: Json, review: Json, sections: seq<SectionOutput>) {
    && IsCandidate(raw, sections)
    && AllReleasable(judges, plan, sections)
    && IsApproved(judges, plan, sections, identity, review)
  }

  ghost predicate MayRelease(judges: Judges, plan: Plan, raw: Json, identity: Json, review: Json) {
    exists sections :: IsReleasable(judges, plan, raw, identity, review, sections)
  }

  lemma {:induction false} IssuelessExactly(plan: Plan, section: SectionOutput, verdict: Verdict)
    requires verdict.Verdict?
    ensures VerdictIssues(plan, section, verdict) == [] <==> VerdictApproves(plan, section, verdict)
  {
    hide EvidenceIsValid;
  }

  lemma {:induction false} ApprovedExactly(judges: Judges, plan: Plan, sections: seq<SectionOutput>, identity: Json, review: Json)
    requires IsExactReview(judges, plan, sections, identity, review)
    ensures AllVerdicts(VerdictsOf(review, |sections|))
    ensures IsApproved(judges, plan, sections, identity, review)
       <==> AllVerdictIssues(plan, sections, VerdictsOf(review, |sections|), |sections|) == []
            && EvidenceIsComplete(plan, sections, VerdictsOf(review, |sections|))
  {
    hide IsApproved, VerdictIssues, VerdictsOf, EvidenceIsValid, TargetDigest, HasExactly, GetOrNull;
    var verdicts := VerdictsOf(review, |sections|);
    ReviewExactly(judges, plan, sections, identity, review);
    forall i | 0 <= i < |sections|
      ensures verdicts[i].Verdict? && (VerdictIssues(plan, sections[i], verdicts[i]) == [] <==> VerdictApproves(plan, sections[i], verdicts[i]))
    {
      assert VerdictIsFor(judges, verdicts[i], sections[i]);
      IssuelessExactly(plan, sections[i], verdicts[i]);
    }
  }

  lemma {:induction false} AssessmentExactly(judges: Judges, plan: Plan, raw: Json, identity: Json, review: Json)
    requires MayAssess(judges, plan, identity)
    ensures var c := ReadCandidate(plan.template, raw);
            Passed(Assess(judges, plan, raw, identity, review))
            <==> PrepareIssues(judges, plan, c) == [] && IsApproved(judges, plan, SectionsOf(c), identity, review)
  {
    hide IsApproved, MayAssess, ReadCandidate, SectionsOf, PrepareIssues, IsExactReview, EvidenceIsComplete, VerdictsOf, AllVerdictIssues;
    var sections := SectionsOf(ReadCandidate(plan.template, raw));
    ReviewExactly(judges, plan, sections, identity, review);
    if IsExactReview(judges, plan, sections, identity, review) {
      ApprovedExactly(judges, plan, sections, identity, review);
    }
  }

  lemma {:induction false} UnassessedIsRefused(judges: Judges, plan: Plan, raw: Json, identity: Json, review: Json)
    requires !MayAssess(judges, plan, identity)
    ensures !Passed(Assess(judges, plan, raw, identity, review))
  {
    hide MayAssess, ReadCandidate, SectionsOf, PrepareIssues, IsExactReview, AllVerdictIssues, EvidenceIsComplete,
         VerdictsOf;
  }

  lemma {:induction false} AssessedSections(judges: Judges, plan: Plan, raw: Json, identity: Json, review: Json)
    requires MayAssess(judges, plan, identity)
    ensures Assess(judges, plan, raw, identity, review).Assessed?
    ensures Assess(judges, plan, raw, identity, review).sections == SectionsOf(ReadCandidate(plan.template, raw))
  {
    hide MayAssess, ReadCandidate, SectionsOf, PrepareIssues, IsExactReview, EvidenceIsComplete, VerdictsOf, AllVerdictIssues;
  }

  /** What may be released is what is read, and only of what passes. */
  lemma {:induction false} ReleasableExactly(judges: Judges, plan: Plan, raw: Json, identity: Json, review: Json, sections: seq<SectionOutput>)
    requires NoRepeats(SectionKeys(plan.template.sections)) && MayAssess(judges, plan, identity)
    ensures IsReleasable(judges, plan, raw, identity, review, sections)
       <==> Passed(Assess(judges, plan, raw, identity, review)) && sections == SectionsOf(ReadCandidate(plan.template, raw))
  {
    hide PrepareIssues, IsApproved, IsWhole, ReadCandidate, SectionsOf, NoRepeats, MayAssess, Assess, Passed, SectionKeys,
         IsCandidate, SectionIsReleasable;
    AssessmentExactly(judges, plan, raw, identity, review);
    PreparationExactly(judges, plan, raw);
    if |sections| <= |plan.template.sections| {
      CandidateExactly(plan.template, raw, sections);
    }
  }

  /** A document passes exactly when the candidate is releasable, and what is released is the candidate. */
  lemma {:induction false} PassedExactly(judges: Judges, plan: Plan, raw: Json, identity: Json, review: Json)
    requires NoRepeats(SectionKeys(plan.template.sections))
    ensures Passed(Assess(judges, plan, raw, identity, review))
       <==> && judges.identityIsValid(identity) && plan.template.exactWording && Restore(SnapshotOf(plan)).Planned?
            && MayRelease(judges, plan, raw, identity, review)
    ensures Passed(Assess(judges, plan, raw, identity, review)) ==>
      IsReleasable(judges, plan, raw, identity, review, Assess(judges, plan, raw, identity, review).sections)
  {
    hide ReadCandidate, SectionsOf, NoRepeats, Restore, SnapshotOf, Assess, Passed, SectionKeys, IsReleasable;
    if MayAssess(judges, plan, identity) {
      AssessedSections(judges, plan, raw, identity, review);
      ReleasableExactly(judges, plan, raw, identity, review, SectionsOf(ReadCandidate(plan.template, raw)));
      if sections :| IsReleasable(judges, plan, raw, identity, review, sections) {
        ReleasableExactly(judges, plan, raw, identity, review, sections);
      }
    } else {
      UnassessedIsRefused(judges, plan, raw, identity, review);
    }
  }

  /** The verdict holds a visible quote for this reference that stands in the accepted source which the section cites under it. */
  ghost predicate IsSubstantiated(plan: Plan, section: SectionOutput, reference: Text, verdict: Verdict) {
    verdict.Verdict? && exists e :: 0 <= e < |verdict.evidence| && Substantiates(plan, section, reference, verdict.evidence[e])
  }

  ghost predicate Substantiates(plan: Plan, section: SectionOutput, reference: Text, item: Evidence) {
    item.sourceId == reference && IsVisible(item.quote) && IsQuoted(plan, section, item)
  }

  lemma {:induction false} QuotesAreVisible(v: Json, e: nat)
    requires ReadVerdict(v).Verdict? && e < |ReadVerdict(v).evidence|
    ensures IsVisible(ReadVerdict(v).evidence[e].quote)
  {
    assert IsEvidence(GetOrNull(v, EVIDENCE).items[e]);
  }

  /** The evidence of a verdict that approves a final section substantiates each of its references. */
  lemma {:induction false} ApprovalSubstantiates(plan: Plan, section: SectionOutput, v: Json, r: nat)
    requires VerdictApproves(plan, section, ReadVerdict(v))
    requires section.state == Final && r < |section.references|
    ensures IsSubstantiated(plan, section, section.references[r], ReadVerdict(v))
  {
    var verdict := ReadVerdict(v);
    assert HasEvidence(verdict.evidence, section.references[r]);
    var e :| 0 <= e < |verdict.evidence| && verdict.evidence[e].sourceId == section.references[r];
    QuotesAreVisible(v, e);
    assert Substantiates(plan, section, section.references[r], verdict.evidence[e]);
  }

  lemma {:induction false} ReleasableCites(judges: Judges, plan: Plan, contract: SectionContract, section: SectionOutput, r: nat)
    requires SectionIsReleasable(judges, plan, contract, section) && section.state == Final && r < |section.references|
    ensures CitesDependency(plan, contract, section.references[r])
  {
  }

  /** Every citation of an approved final section names a present input of the section, and the review's own evidence quotes it verbatim. */
  lemma {:induction false} ApprovedCitationsAreQuoted(judges: Judges, plan: Plan, sections: seq<SectionOutput>, identity: Json, review: Json, i: nat, r: nat)
    requires AllReleasable(judges, plan, sections) && IsApproved(judges, plan, sections, identity, review)
    requires i < |sections| && sections[i].state == Final && r < |sections[i].references|
    ensures CitesDependency(plan, plan.template.sections[i], sections[i].references[r])
    ensures |VerdictsOf(review, |sections|)| == |sections|
    ensures IsSubstantiated(plan, sections[i], sections[i].references[r], VerdictsOf(review, |sections|)[i])
  {
    hide IsApproved, SectionIsReleasable, VerdictApproves, ReadVerdict, HasExactly, GetOrNull, IsSubstantiated, CitesDependency;
    ReviewExactly(judges, plan, sections, identity, review);
    assert SectionIsReleasable(judges, plan, plan.template.sections[i], sections[i]);
    ReleasableCites(judges, plan, plan.template.sections[i], sections[i], r);
    assert VerdictApproves(plan, sections[i], VerdictsOf(review, |sections|)[i]);
    ApprovalSubstantiates(plan, sections[i], GetOrNull(review, SECTIONS).items[i], r);
  }

  /** The final sections cite nothing that the review's evidence does not quote from the cited source. */
  ghost predicate CitationsAreQuoted(plan: Plan, sections: seq<SectionOutput>, review: Json) {
    && |VerdictsOf(review, |sections|)| == |sections|
    && forall i, r :: 0 <= i < |sections| && sections[i].state == Final && 0 <= r < |sections[i].references| ==>
         IsSubstantiated(plan, sections[i], sections[i].references[r], VerdictsOf(review, |sections|)[i])
  }

  lemma {:induction false} ApprovedAreQuoted(judges: Judges, plan: Plan, sections: seq<SectionOutput>, identity: Json, review: Json)
    requires AllReleasable(judges, plan, sections) && IsApproved(judges, plan, sections, identity, review)
    ensures CitationsAreQuoted(plan, sections, review)
  {
    forall i, r | 0 <= i < |sections| && sections[i].state == Final && 0 <= r < |sections[i].references|
      ensures IsSubstantiated(plan, sections[i], sections[i].references[r], VerdictsOf(review, |sections|)[i])
    {
      ApprovedCitationsAreQuoted(judges, plan, sections, identity, review, i, r);
    }
  }

  /** The same for a passed assessment. */
  lemma {:induction false} ReleasedCitationsAreQuoted(judges: Judges, plan: Plan, raw: Json, identity: Json, review: Json, i: nat, r: nat)
    requires NoRepeats(SectionKeys(plan.template.sections)) && Passed(Assess(judges, plan, raw, identity, review))
    requires var sections := Assess(judges, plan, raw, identity, review).sections;
             i < |sections| && sections[i].state == Final && r < |sections[i].references|
    ensures var sections := Assess(judges, plan, raw, identity, review).sections;
            && i < |plan.template.sections| && CitesDependency(plan, plan.template.sections[i], sections[i].references[r])
            && |VerdictsOf(review, |sections|)| == |sections|
            && IsSubstantiated(plan, sections[i], sections[i].references[r], VerdictsOf(review, |sections|)[i])
  {
    PassedExactly(judges, plan, raw, identity, review);
    ApprovedCitationsAreQuoted(judges, plan, Assess(judges, plan, raw, identity, review).sections, identity, review, i, r);
  }

  lemma {:induction false} AssessedSourceIsAccepted(judges: Judges, plan: Plan, identity: Json, k: nat)
    requires MayAssess(judges, plan, identity) && k < |plan.sources|
    ensures SourceIsAccepted(SourceValue(plan.sources[k]), plan.inputValues)
  {
    StoredEnvelopes(plan);
    assert SourceIsAccepted(SourceValues(plan.sources)[k], plan.inputValues);
  }

  lemma {:induction false} SourceValueIsValue(source: Source)
    requires IsValue(source.value)
    ensures IsValue(SourceValue(source))
  {
    NamesDiffer();
  }

  /** On a plan that may be assessed, what a source says is what the accepted input of its key says. */
  lemma {:induction false} AssessedSourcesAreInputs(judges: Judges, plan: Plan, identity: Json, k: nat)
    requires MayAssess(judges, plan, identity) && k < |plan.sources|
    requires IsValue(Obj(plan.inputValues)) && IsValue(plan.sources[k].value)
    ensures IsFaithfulSource(plan.sources[k], plan.inputValues)
  {
    AssessedSourceIsAccepted(judges, plan, identity, k);
    SourceValueIsValue(plan.sources[k]);
    AcceptedSourceIsFaithful(SourceValue(plan.sources[k]), plan.inputValues);
    SourceValueReads(plan.sources[k]);
  }

  // ----- the review is bound to the exact wording -----

  lemma {:induction false} WellFormedConcat(a: Text, b: Text)
    requires Utf8.IsWellFormed(a) && Utf8.IsWellFormed(b)
    ensures Utf8.IsWellFormed(a + b)
    decreases |a|
  {
    if a == [] {
      assert a + b == b;
    } else {
      var k := StepLength(a);
      WellFormedConcat(a[k..], b);
      assert StepLength(a + b) == k;
      assert (a + b)[k..] == a[k..] + b;
    }
  }

  lemma {:induction false} PlainIsWellFormed(t: Text)
    requires forall i :: 0 <= i < |t| ==> !IsHighSurrogate(t[i]) && !IsLowSurrogate(t[i])
    ensures Utf8.IsWellFormed(t)
    decreases |t|
  {
    if t != [] {
      PlainIsWellFormed(t[1..]);
    }
  }

  lemma {:induction false} EscapeIsWellFormed(t: Text)
    ensures Utf8.IsWellFormed(Escape(t))
    decreases |t|
  {
    if t != [] {
      EscapeIsWellFormed(t[StepLength(t)..]);
      if StepLength(t) == 2 {
        assert t[..2][2..] == [] && Utf8.IsWellFormed(t[..2]);
      } else {
        PlainIsWellFormed(EscapeUnit(t[0]));
      }
      WellFormedConcat(StepText(t), Escape(t[StepLength(t)..]));
    }
  }

  lemma {:induction false} QuotedIsWellFormed(t: Text)
    ensures Utf8.IsWellFormed(Quoted(t))
  {
    EscapeIsWellFormed(t);
    PlainIsWellFormed([QUOTE]);
    WellFormedConcat([QUOTE], Escape(t));
    WellFormedConcat([QUOTE] + Escape(t), [QUOTE]);
  }

  /** `JSON.stringify` never prints a lone surrogate. */
  lemma {:induction false} StringifyIsWellFormed(v: Json)
    ensures Utf8.IsWellFormed(Stringify(v))
    decreases v, 0
  {
    match v
    case Str(t) => QuotedIsWellFormed(t);
    case Num(n) =>
      NumberUnits(n);
      PlainIsWellFormed(PrintNumber(n));
    case Arr(items) =>
      ItemsAreWellFormed(items);
      PlainIsWellFormed([OPEN_BRACKET]);
      PlainIsWellFormed([CLOSE_BRACKET]);
      WellFormedConcat(ItemsText(items), [CLOSE_BRACKET]);
      WellFormedConcat([OPEN_BRACKET], ItemsText(items) + [CLOSE_BRACKET]);
    case Obj(fields) =>
      FieldsAreWellFormed(fields);
      PlainIsWellFormed([OPEN_BRACE]);
      PlainIsWellFormed([CLOSE_BRACE]);
      WellFormedConcat(FieldsText(fields), [CLOSE_BRACE]);
      WellFormedConcat([OPEN_BRACE], FieldsText(fields) + [CLOSE_BRACE]);
    case _ => PlainIsWellFormed(Stringify(v));
  }

  lemma {:induction false} ItemsAreWellFormed(items: seq<Json>)
    ensures Utf8.IsWellFormed(ItemsText(items)) && Utf8.IsWellFormed(MoreItems(items))
    decreases items, 1
  {
    if items != [] {
      StringifyIsWellFormed(items[0]);
      ItemsAreWellFormed(items[1..]);
      WellFormedConcat(Stringify(items[0]), MoreItems(items[1..]));
      PlainIsWellFormed([COMMA]);
      WellFormedConcat([COMMA], Stringify(items[0]) + MoreItems(items[1..]));
    }
  }

  lemma {:induction false} FieldIsWellFormed(field: Field)
    ensures Utf8.IsWellFormed(FieldText(field))
    decreases field, 1
  {
    QuotedIsWellFormed(field.key);
    StringifyIsWellFormed(field.value);
    PlainIsWellFormed([COLON]);
    WellFormedConcat([COLON], Stringify(field.value));
    WellFormedConcat(Quoted(field.key), [COLON] + Stringify(field.value));
  }

  lemma {:induction false} FieldsAreWellFormed(fields: seq<Field>)
    ensures Utf8.IsWellFormed(FieldsText(fields)) && Utf8.IsWellFormed(MoreFields(fields))
    decreases fields, 2
  {
    if fields != [] {
      FieldIsWellFormed(fields[0]);
      FieldsAreWellFormed(fields[1..]);
      WellFormedConcat(FieldText(fields[0]), MoreFields(fields[1..]));
      PlainIsWellFormed([COMMA]);
      WellFormedConcat([COMMA], FieldText(fields[0]) + MoreFields(fields[1..]));
    }
  }

  lemma {:induction false} SameField(a: seq<Field>, b: seq<Field>, i: nat)
    requires Same(Obj(a), Obj(b)) && DistinctKeys(b)
    requires i < |a| == |b| && a[i].key == b[i].key
    ensures Same(a[i].value, b[i].value)
  {
    var j :| 0 <= j < |b| && b[j].key == a[i].key && Same(a[i].value, b[j].value);
    assert i == j;
  }

  lemma {:induction false} SameFields(a: seq<Field>, b: seq<Field>)
    requires Same(Obj(a), Obj(b)) && DistinctKeys(b) && |a| == |b|
    requires forall i :: 0 <= i < |a| ==> a[i].key == b[i].key
    ensures forall i :: 0 <= i < |a| ==> Same(a[i].value, b[i].value)
  {
    forall i | 0 <= i < |a| ensures Same(a[i].value, b[i].value) {
      SameField(a, b, i);
    }
  }

  lemma {:induction false} SameText(a: Text, b: Text)
    requires Same(Str(a), Str(b))
    ensures a == b
  {
  }

  lemma {:induction false} SameTexts(x: seq<Text>, y: seq<Text>)
    requires Same(Arr(TextValues(x)), Arr(TextValues(y)))
    ensures x == y
  {
    forall i | 0 <= i < |x| ensures x[i] == y[i] {
      assert Same(TextValues(x)[i], TextValues(y)[i]);
    }
  }

  lemma {:induction false} StateTextIsInjective(a: SectionState, b: SectionState)
    requires StateText(a) == StateText(b)
    ensures a == b
  {
    assert |FINAL| == 5 && |NEUTRAL_FALLBACK| == 16 && |OMITTED_OPTIONAL| == 16;
    assert NEUTRAL_FALLBACK[0] == 110 && OMITTED_OPTIONAL[0] == 111;
  }

  lemma {:induction false} UnitIsValue(judges: Judges, section: SectionOutput)
    ensures IsValue(UnitJson(judges, section)) && DistinctKeys(UnitJson(judges, section).fields)
  {
    assert SECTION_KEY[0] == 115 && CONTENT[0] == 99 && STATE[1] == 116 && SOURCE_REFERENCES[1] == 111 && SECTION_KEY[1] == 101;
    assert |CONTENT| == 7 && |CONTENT_SHA256| == 14 && |STATE| == 5 && |SOURCE_REFERENCES| == 17 && |SECTION_KEY| == 11;
  }

  lemma {:induction false} SameUnit(judges: Judges, a: SectionOutput, b: SectionOutput)
    requires Same(UnitJson(judges, a), UnitJson(judges, b))
    ensures a == b
  {
    hide Same, StateText, WordingDigest, TextValues, IsValue, DistinctKeys;
    var x, y := UnitJson(judges, a).fields, UnitJson(judges, b).fields;
    UnitIsValue(judges, b);
    SameFields(x, y);
    assert Same(x[0].value, y[0].value) && Same(x[1].value, y[1].value) && Same(x[2].value, y[2].value) && Same(x[3].value, y[3].value);
    SameText(a.sectionKey, b.sectionKey);
    SameText(a.content, b.content);
    SameText(StateText(a.state), StateText(b.state));
    StateTextIsInjective(a.state, b.state);
    SameTexts(a.references, b.references);
  }

  /** One unit of the binding: the section as the candidate's JSON says it, with its digest. */
  ghost predicate IsUnitOf(judges: Judges, v: Json, section: SectionOutput) {
    && v.Obj? && |v.fields| == 5
    && Field(SECTION_KEY, Str(section.sectionKey)) in v.fields && Field(CONTENT, Str(section.content)) in v.fields
    && (exists state :: Field(STATE, state) in v.fields && IsStateOf(section.state, state))
    && Field(SOURCE_REFERENCES, Arr(TextValues(section.references))) in v.fields
    && Field(CONTENT_SHA256, Str(judges.sha256(Utf8.Encode(section.content)))) in v.fields
  }

  lemma {:induction false} UnitIsOf(judges: Judges, section: SectionOutput)
    ensures IsUnitOf(judges, UnitJson(judges, section), section)
  {
    var fields := UnitJson(judges, section).fields;
    assert fields[0] in fields && fields[1] in fields && fields[2] in fields && fields[3] in fields && fields[4] in fields;
    assert IsStateOf(section.state, fields[2].value);
  }

  /** The review is bound to all that it was made of, each under its own name. */
  lemma {:induction false} BindingHolds(judges: Judges, plan: Plan, sections: seq<SectionOutput>, identity: Json)
    ensures var b, stored := Binding(judges, plan, sections, identity), SnapshotOf(plan);
      && Field(IDENTITY, identity) in b.fields
      && Field(TEMPLATE_ID, Str(judges.templateId(plan.template))) in b.fields
      && Field(BENCHMARK_VERSION, Str(judges.benchmarkVersion(plan.template))) in b.fields
      && Field(ACCEPTED_SOURCES, stored.sourceSnapshot) in b.fields
      && Field(EVIDENCE, stored.evidenceSnapshot) in b.fields
      && Field(CONFIRMATIONS, stored.confirmations) in b.fields
      && Field(CONTRACT, judges.contractJson(plan.template)) in b.fields
      && exists units: seq<Json> :: Field(UNITS, Arr(units)) in b.fields && AreUnitsOf(judges, units, sections)
  {
    hide SnapshotOf, UnitsJson, AreUnitsOf;
    var f := Binding(judges, plan, sections, identity).fields;
    assert f[0] in f && f[1] in f && f[2] in f && f[3] in f && f[4] in f && f[5] in f && f[6] in f && f[7] in f && f[8] in f;
    UnitsAreOf(judges, sections);
  }

  ghost predicate AreUnitsOf(judges: Judges, units: seq<Json>, sections: seq<SectionOutput>) {
    |units| == |sections| && forall i :: 0 <= i < |units| ==> IsUnitOf(judges, units[i], sections[i])
  }

  lemma {:induction false} UnitsAreOf(judges: Judges, sections: seq<SectionOutput>)
    ensures AreUnitsOf(judges, UnitsJson(judges, sections), sections)
  {
    hide IsUnitOf, UnitJson;
    forall i | 0 <= i < |sections| ensures IsUnitOf(judges, UnitsJson(judges, sections)[i], sections[i]) {
      UnitIsOf(judges, sections[i]);
    }
  }

  lemma {:induction false} SameParts(judges: Judges, planA: Plan, a: seq<SectionOutput>, identityA: Json, planB: Plan, b: seq<SectionOutput>, identityB: Json, i: nat)
    requires IsValue(Binding(judges, planB, b, identityB)) && i < 9
    requires Same(Binding(judges, planA, a, identityA), Binding(judges, planB, b, identityB))
    ensures Same(Binding(judges, planA, a, identityA).fields[i].value, Binding(judges, planB, b, identityB).fields[i].value)
  {
    hide UnitsJson, SnapshotOf, Same, TargetDigest, Restore;
    SameField(Binding(judges, planA, a, identityA).fields, Binding(judges, planB, b, identityB).fields, i);
  }

  lemma {:induction false} SameWording(judges: Judges, a: seq<SectionOutput>, b: seq<SectionOutput>)
    requires Same(Arr(UnitsJson(judges, a)), Arr(UnitsJson(judges, b)))
    ensures a == b
  {
    hide UnitJson, WordingDigest;
    forall i | 0 <= i < |a| ensures a[i] == b[i] {
      assert Same(UnitsJson(judges, a)[i], UnitsJson(judges, b)[i]);
      SameUnit(judges, a[i], b[i]);
    }
  }

  /** Bindings that are the same JSON value bind the same wording, identity, sources and contract. */
  lemma {:induction false} SameBinding(judges: Judges, planA: Plan, a: seq<SectionOutput>, identityA: Json, planB: Plan, b: seq<SectionOutput>, identityB: Json)
    requires IsValue(Binding(judges, planB, b, identityB))
    requires Same(Binding(judges, planA, a, identityA), Binding(judges, planB, b, identityB))
    ensures a == b && Same(identityA, identityB)
    ensures Same(SnapshotOf(planA).sourceSnapshot, SnapshotOf(planB).sourceSnapshot)
    ensures Same(SnapshotOf(planA).evidenceSnapshot, SnapshotOf(planB).evidenceSnapshot)
    ensures Same(SnapshotOf(planA).confirmations, SnapshotOf(planB).confirmations)
    ensures judges.templateId(planA.template) == judges.templateId(planB.template)
    ensures judges.benchmarkVersion(planA.template) == judges.benchmarkVersion(planB.template)
    ensures Same(judges.contractJson(planA.template), judges.contractJson(planB.template))
  {
    hide UnitsJson, SnapshotOf, IsValue;
    forall i | 0 <= i < 9
      ensures Same(Binding(judges, planA, a, identityA).fields[i].value, Binding(judges, planB, b, identityB).fields[i].value)
    {
      SameParts(judges, planA, a, identityA, planB, b, identityB, i);
    }
    var x, y := Binding(judges, planA, a, identityA).fields, Binding(judges, planB, b, identityB).fields;
    assert Same(x[0].value, y[0].value) && Same(x[2].value, y[2].value) && Same(x[3].value, y[3].value);
    assert Same(x[4].value, y[4].value) && Same(x[5].value, y[5].value) && Same(x[6].value, y[6].value);
    assert Same(x[7].value, y[7].value) && Same(x[8].value, y[8].value);
    SameWording(judges, a, b);
  }

  /**
   One review can only ever release one wording: if it passes two candidates, under any
   plans and identities, and SHA-256 does not collide on their two bindings, then the
   released sections, the identity, the accepted sources and the contract are the same.
   */
  lemma {:induction false} ReviewBindsWording(judges: Judges, planA: Plan, rawA: Json, identityA: Json, planB: Plan, rawB: Json, identityB: Json, review: Json)
    requires Passed(Assess(judges, planA, rawA, identityA, review)) && Passed(Assess(judges, planB, rawB, identityB, review))
    requires var a, b := Assess(judges, planA, rawA, identityA, review).sections, Assess(judges, planB, rawB, identityB, review).sections;
             && IsValue(Binding(judges, planA, a, identityA)) && IsValue(Binding(judges, planB, b, identityB))
             && NoCollision(judges, CanonicalJson(Binding(judges, planA, a, identityA)), CanonicalJson(Binding(judges, planB, b, identityB)))
    ensures Assess(judges, planA, rawA, identityA, review).sections == Assess(judges, planB, rawB, identityB, review).sections
    ensures Same(identityA, identityB)
    ensures Same(SnapshotOf(planA).sourceSnapshot, SnapshotOf(planB).sourceSnapshot)
    ensures Same(SnapshotOf(planA).evidenceSnapshot, SnapshotOf(planB).evidenceSnapshot)
    ensures Same(SnapshotOf(planA).confirmations, SnapshotOf(planB).confirmations)
    ensures judges.templateId(planA.template) == judges.templateId(planB.template)
    ensures judges.benchmarkVersion(planA.template) == judges.benchmarkVersion(planB.template)
    ensures Same(judges.contractJson(planA.template), judges.contractJson(planB.template))
  {
    hide CanonicalJson, Binding, Same, SnapshotOf, IsValue, NoCollision, PrepareIssues, ReadCandidate, SectionsOf,
         AllVerdictIssues, EvidenceIsComplete, VerdictsOf, MayAssess, IssueIf;
    var a, b := Assess(judges, planA, rawA, identityA, review).sections, Assess(judges, planB, rawB, identityB, review).sections;
    SameDigestSameBinding(judges, Binding(judges, planA, a, identityA), Binding(judges, planB, b, identityB));
    SameBinding(judges, planA, a, identityA, planB, b, identityB);
  }

  /** SHA-256 tells the UTF-8 bytes of these two texts apart. */
  predicate NoCollision(judges: Judges, s: Text, t: Text) {
    judges.sha256(Utf8.Encode(s)) == judges.sha256(Utf8.Encode(t)) ==> Utf8.Encode(s) == Utf8.Encode(t)
  }

  lemma {:induction false} SameDigestSameBinding(judges: Judges, a: Json, b: Json)
    requires IsValue(a) && IsValue(b) && NoCollision(judges, CanonicalJson(a), CanonicalJson(b))
    requires WordingDigest(judges, CanonicalJson(a)) == WordingDigest(judges, CanonicalJson(b))
    ensures Same(a, b)
  {
    CanonicalIsStringify(a);
    CanonicalIsStringify(b);
    StringifyIsWellFormed(SortKeys(ByCodeUnit, a));
    StringifyIsWellFormed(SortKeys(ByCodeUnit, b));
    Utf8.EncodeIsInjective(CanonicalJson(a), CanonicalJson(b));
    CanonicalJsonIsFaithful(a, b);
  }
}
