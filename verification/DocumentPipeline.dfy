/**
 document-pipeline.ts and document-pipeline-utils.ts: the audited drafting pipeline.

 The writer and the two auditors are arbitrary: `Oracles` holds one answer for every
 call a run can make, each call being identified by its stage. The regular
 expressions and text heuristics are arbitrary functions in `Heuristics`. What the
 pipeline itself does with those answers is modelled branch by branch.

 The main result is the postcondition of `RunDocumentPipeline`, `IsSafeRun`.
 */
module DocumentPipeline {
  import opened Texts

  /** A value, or one of the errors a run throws. */
  datatype Outcome<+T> = Failed | Done(value: T) {
    predicate IsFailure() { Failed? }
    function PropagateFailure<U>(): Outcome<U> requires Failed? { Failed }
    function Extract(): T requires Done? { value }
  }

  datatype TemplateSection = TemplateSection(key: Text, title: Text)

  datatype DraftSection = DraftSection(key: Text, title: Text, content: Text)

  datatype Severity = Low | Medium | High

  datatype Category = Fact | Intent | Tone | Structure | Layout | Completeness | InstructionLeakage | BlankOutput

  datatype Scope = Unscoped | Scoped(key: Text)

  /** What an issue reports: an auditor's own words, or one of the pipeline's fixed messages. */
  datatype Finding =
    | Reported(text: Text)
    | PurposeOnlyOutput
    | InstructionsInOutput
    | NoWordingToReview
    | NoAuditResult(unit: Text)
    | GroundingFailed(unit: Text)
    | EvidenceNotVerified(unit: Text)
    | InvalidClassification(unit: Text)

  datatype Issue = Issue(severity: Severity, category: Category, scope: Scope, finding: Finding)

  datatype Phase = Draft | Repair(round: nat) | FinalRepair | WeakRepair(of: Phase)

  datatype Previous = NoPrevious | Previous(section: DraftSection)

  datatype WriterReply = Written(text: Text) | RepairLimitReached | WriterFailed

  datatype QualityReply = QualityFailed | Reviewed(issues: seq<Issue>)

  datatype Classification = Supported | Convention | Guidance | Unsupported | OtherClass

  datatype Entry = Entry(unitId: Text, classification: Classification, quotes: seq<Text>, unsupported: seq<Text>)

  datatype GroundingReply = GroundingRefused | Graded(entries: seq<Entry>)

  datatype FactualUnit = FactualUnit(id: Text, sectionKey: Text, text: Text)

  /** What the provider answers to every call a run can make. */
  datatype Oracles = Oracles(
    planned: bool,
    write: (TemplateSection, Phase, seq<Issue>, Previous) -> WriterReply,
    quality: (nat, seq<DraftSection>) -> QualityReply,
    grounding: (nat, seq<FactualUnit>) -> GroundingReply)

  /** Content rules the pipeline consults; no property depends on what they are. */
  datatype Heuristics = Heuristics(
    blank: Text -> bool,
    leaky: DraftSection -> bool,
    weak: (Text, FoundTemplate) -> bool,
    strip: Text -> Text,
    unitTexts: DraftSection -> seq<Text>,
    tokens: Text -> seq<Text>,
    declaredTokens: Text -> seq<Text>,
    fallbackContent: TemplateSection -> Outcome<Text>,
    displayLabel: TemplateSection -> Text,
    mentions: (Issue, Text) -> bool,
    purposeOnly: Finding -> bool,
    auditWarning: Finding -> bool,
    issueKey: Issue -> Text,
    infer: (Issue, seq<DraftSection>) -> seq<Text>,
    deterministicIssues: seq<DraftSection> -> seq<Issue>,
    lettered: Text -> bool,
    normalise: Text -> Text,
    integrity: seq<DraftSection> -> bool)

  datatype Input = Input(template: seq<TemplateSection>, source: Text, oracles: Oracles, rules: Heuristics)

  // ----- sections and issues -----

  /** `!issue.section_key`. */
  predicate HasNoKey(issue: Issue) {
    issue.scope.Unscoped? || issue.scope.key == []
  }

  predicate IsBlocking(issue: Issue) {
    issue.severity == Medium || issue.severity == High
  }

  predicate ConcernsSection(issue: Issue, key: Text) {
    issue.scope == Scoped(key)
  }

  predicate IsTemplateKey(template: seq<TemplateSection>, key: Text) {
    exists i :: 0 <= i < |template| && template[i].key == key
  }

  function TemplateKeys(template: seq<TemplateSection>): (r: seq<Text>)
    ensures |r| == |template| && forall i :: 0 <= i < |r| ==> r[i] == template[i].key
  {
    if template == [] then [] else [template[0].key] + TemplateKeys(template[1..])
  }

  function SectionKeys(sections: seq<DraftSection>): (r: seq<Text>)
    ensures |r| == |sections| && forall i :: 0 <= i < |r| ==> r[i] == sections[i].key
  {
    if sections == [] then [] else [sections[0].key] + SectionKeys(sections[1..])
  }

  function BlockingIssues(issues: seq<Issue>): (r: seq<Issue>)
    ensures forall x :: x in r <==> x in issues && IsBlocking(x)
  {
    if issues == [] then []
    else if IsBlocking(issues[0]) then [issues[0]] + BlockingIssues(issues[1..])
    else BlockingIssues(issues[1..])
  }

  /** sectionFallbackPlaceholder, which throws when the section's title cannot be printed in a token. */
  function FallbackSection(rules: Heuristics, section: TemplateSection): Outcome<DraftSection> {
    var content :- rules.fallbackContent(section);
    Done(DraftSection(section.key, section.title, content))
  }

  /** The section is the deterministic needs-input slot of a template section with its key. */
  predicate IsFallback(input: Input, section: DraftSection) {
    exists i :: 0 <= i < |input.template| && input.template[i].key == section.key
             && FallbackSection(input.rules, input.template[i]) == Done(section)
  }

  // ----- writing -----

  function WeakOutputCorrection(section: TemplateSection): Issue {
    Issue(High, Completeness, Scoped(section.key), PurposeOnlyOutput)
  }

  predicate IsWeakCorrection(rules: Heuristics, issue: Issue) {
    issue.category == Completeness && (issue.finding == PurposeOnlyOutput || rules.purposeOnly(issue.finding))
  }

  predicate HasWeakOutputCorrection(rules: Heuristics, issues: seq<Issue>) {
    exists i :: 0 <= i < |issues| && IsWeakCorrection(rules, issues[i])
  }

  function RelevantCorrections(corrections: seq<Issue>, key: Text): (r: seq<Issue>)
    ensures forall x :: x in r <==> x in corrections && (HasNoKey(x) || ConcernsSection(x, key))
  {
    if corrections == [] then []
    else
      (if HasNoKey(corrections[0]) || ConcernsSection(corrections[0], key) then [corrections[0]] else [])
        + RelevantCorrections(corrections[1..], key)
  }

  function SectionLabel(rules: Heuristics, section: TemplateSection, previous: Previous, relevant: seq<Issue>): Text {
    match previous
    case NoPrevious => rules.displayLabel(section)
    case Previous(p) =>
      if p.title != section.title && exists i :: 0 <= i < |relevant| && rules.mentions(relevant[i], p.title)
      then section.title
      else p.title
  }

  lemma {:induction false} WeakCorrectionIsRelevant(rules: Heuristics, corrections: seq<Issue>, section: TemplateSection)
    ensures HasWeakOutputCorrection(rules, RelevantCorrections(corrections + [WeakOutputCorrection(section)], section.key))
  {
    var extended := corrections + [WeakOutputCorrection(section)];
    assert extended[|corrections|] in extended;
    var relevant := RelevantCorrections(extended, section.key);
    assert WeakOutputCorrection(section) in relevant;
    var i :| 0 <= i < |relevant| && relevant[i] == WeakOutputCorrection(section);
    assert IsWeakCorrection(rules, relevant[i]);
  }

  /** writeSection: one call, one retry when the wording is weak, then salvage or the fallback. */
  function WriteSection(input: Input, section: TemplateSection, corrections: seq<Issue>, phase: Phase, previous: Previous)
    : (r: Outcome<DraftSection>)
    ensures r.Done? ==> r.value.key == section.key
    decreases if HasWeakOutputCorrection(input.rules, RelevantCorrections(corrections, section.key)) then 0 else 1
  {
    var rules := input.rules;
    if phase != Draft && (previous.NoPrevious? || previous.section.key != section.key) then Failed
    else
      var relevant := RelevantCorrections(corrections, section.key);
      var title := SectionLabel(rules, section, previous, relevant);
      match input.oracles.write(section, phase, relevant, previous)
      case WriterFailed => Failed
      case RepairLimitReached => if phase != Draft then FallbackSection(rules, section) else Failed
      case Written(text) =>
        if !rules.weak(text, FoundTemplate(section)) then Done(DraftSection(section.key, title, text))
        else if !HasWeakOutputCorrection(rules, relevant) then
          WeakCorrectionIsRelevant(rules, corrections, section);
          WriteSection(input, section, corrections + [WeakOutputCorrection(section)], WeakRepair(phase),
                       Previous(DraftSection(section.key, title, text)))
        else
          var salvaged := rules.strip(text);
          if salvaged != [] then Done(DraftSection(section.key, title, salvaged)) else FallbackSection(rules, section)
  }

  /** The entry a `Map` built from the sections keeps for a key: the last one. */
  function LastWithKey(sections: seq<DraftSection>, key: Text): (r: Previous)
    ensures r.Previous? ==> r.section in sections && r.section.key == key
    ensures r.NoPrevious? <==> forall i :: 0 <= i < |sections| ==> sections[i].key != key
  {
    if sections == [] then NoPrevious
    else
      var last := sections[|sections| - 1];
      if last.key == key then Previous(last) else LastWithKey(sections[..|sections| - 1], key)
  }

  /** generateDraft over the selected sections; mapWithConcurrency keeps their order. */
  function WriteSections(
    input: Input, selected: seq<TemplateSection>, corrections: seq<Issue>, phase: Phase, previous: seq<DraftSection>)
    : (r: Outcome<seq<DraftSection>>)
    ensures r.Done? ==> SectionKeys(r.value) == TemplateKeys(selected)
  {
    if selected == [] then Done([])
    else
      var first :- WriteSection(input, selected[0], corrections, phase, LastWithKey(previous, selected[0].key));
      var rest :- WriteSections(input, selected[1..], corrections, phase, previous);
      Done([first] + rest)
  }

  function SelectSections(template: seq<TemplateSection>, keys: seq<Text>): (r: seq<TemplateSection>)
    ensures forall t :: t in r ==> t in template && t.key in keys
  {
    if template == [] then []
    else (if template[0].key in keys then [template[0]] else []) + SelectSections(template[1..], keys)
  }

  /** ensureNoBlankSections: one section per template section, in template order. */
  function EnsureNoBlanks(input: Input, template: seq<TemplateSection>, draft: seq<DraftSection>): (r: Outcome<seq<DraftSection>>)
    ensures r.Done? ==> |r.value| == |template|
    ensures r.Done? ==> forall i :: 0 <= i < |template| ==> Done(r.value[i]) == EnsureNotBlank(input, template[i], draft)
  {
    if template == [] then Done([])
    else
      var first :- EnsureNotBlank(input, template[0], draft);
      var rest :- EnsureNoBlanks(input, template[1..], draft);
      Done([first] + rest)
  }

  function EnsureNotBlank(input: Input, section: TemplateSection, draft: seq<DraftSection>): (r: Outcome<DraftSection>)
    ensures r.Done? ==> r.value.key == section.key
  {
    match LastWithKey(draft, section.key)
    case Previous(existing) => if input.rules.blank(existing.content) then FallbackSection(input.rules, section) else Done(existing)
    case NoPrevious => FallbackSection(input.rules, section)
  }

  // ----- auditing -----

  /** factualAuditUnits: the factual units of a section, numbered from one. */
  function SectionUnits(key: Text, texts: seq<Text>): (r: seq<FactualUnit>)
    ensures |r| == |texts|
    ensures forall i :: 0 <= i < |r| ==> r[i] == FactualUnit(key + [35] + NatText(i + 1), key, texts[i])
  {
    if texts == [] then []
    else SectionUnits(key, texts[..|texts| - 1]) + [FactualUnit(key + [35] + NatText(|texts|), key, texts[|texts| - 1])]
  }

  function FactualUnits(rules: Heuristics, sections: seq<DraftSection>): (r: seq<FactualUnit>)
    ensures forall i, u :: 0 <= i < |sections| && u in SectionUnits(sections[i].key, rules.unitTexts(sections[i])) ==> u in r
  {
    if sections == [] then []
    else SectionUnits(sections[0].key, rules.unitTexts(sections[0])) + FactualUnits(rules, sections[1..])
  }

  datatype Verdict = NoEntry | EntryFor(entry: Entry)

  /** `new Map(entries.map(...)).get(id)`: the last entry for a unit. */
  function VerdictFor(entries: seq<Entry>, id: Text): Verdict {
    if entries == [] then NoEntry
    else if entries[|entries| - 1].unitId == id then EntryFor(entries[|entries| - 1])
    else VerdictFor(entries[..|entries| - 1], id)
  }

  predicate Includes(t: Text, needle: Text) {
    exists at :: 0 <= at <= |t| && OccursAt(t, needle, at)
  }

  function NonEmpty(texts: seq<Text>): (r: seq<Text>)
    ensures forall t :: t in r <==> t in texts && t != []
  {
    if texts == [] then []
    else if texts[0] != [] then [texts[0]] + NonEmpty(texts[1..])
    else NonEmpty(texts[1..])
  }

  predicate IsEvidence(input: Input, quote: Text) {
    && input.rules.lettered(input.rules.normalise(quote))
    && Includes(input.rules.normalise(input.source), input.rules.normalise(quote))
  }

  predicate HasEvidence(input: Input, entry: Entry) {
    var evidence := NonEmpty(entry.quotes);
    evidence != [] && forall i :: 0 <= i < |evidence| ==> IsEvidence(input, evidence[i])
  }

  /** The unit's verdict needs no correction: conventional wording, or support quoted from the source. */
  predicate IsGrounded(input: Input, verdict: Verdict) {
    && verdict.EntryFor?
    && NonEmpty(verdict.entry.unsupported) == []
    && (|| verdict.entry.classification == Convention
        || verdict.entry.classification == Guidance
        || (verdict.entry.classification == Supported && HasEvidence(input, verdict.entry)))
  }

  predicate IsRejected(verdict: Verdict) {
    verdict.EntryFor? && (verdict.entry.classification == Unsupported || NonEmpty(verdict.entry.unsupported) != [])
  }

  /** groundingIssuesFromAudit for one unit. */
  function UnitIssues(input: Input, unit: FactualUnit, entries: seq<Entry>): seq<Issue> {
    var verdict := VerdictFor(entries, unit.id);
    if verdict.NoEntry? then
      [Issue(Low, Completeness, Scoped(unit.sectionKey), NoAuditResult(unit.text))]
    else if IsRejected(verdict) then
      [Issue(High, Fact, Scoped(unit.sectionKey), GroundingFailed(unit.text))]
    else if verdict.entry.classification == Convention || verdict.entry.classification == Guidance then []
    else if verdict.entry.classification == Supported then
      if HasEvidence(input, verdict.entry) then []
      else [Issue(Low, Completeness, Scoped(unit.sectionKey), EvidenceNotVerified(unit.text))]
    else
      [Issue(Low, Completeness, Scoped(unit.sectionKey), InvalidClassification(unit.text))]
  }

  function GroundingIssues(input: Input, units: seq<FactualUnit>, entries: seq<Entry>): (r: seq<Issue>)
    ensures forall u, x :: u in units && x in UnitIssues(input, u, entries) ==> x in r
  {
    if units == [] then [] else UnitIssues(input, units[0], entries) + GroundingIssues(input, units[1..], entries)
  }

  datatype Audit = Audit(issues: seq<Issue>, groundingComplete: bool)

  predicate IsIncompleteGrounding(issue: Issue) {
    issue.category == Completeness
  }

  const NO_WORDING: Issue :=
    Issue(High, BlankOutput, Unscoped, NoWordingToReview)

  function AuditGrounding(input: Input, round: nat, sections: seq<DraftSection>): Outcome<seq<Issue>> {
    var units := FactualUnits(input.rules, sections);
    if units == [] then Done([NO_WORDING])
    else match input.oracles.grounding(round, units)
      case GroundingRefused => Failed
      case Graded(entries) => Done(GroundingIssues(input, units, entries))
  }

  function NewIssues(rules: Heuristics, existing: seq<Issue>, added: seq<Issue>): seq<Issue> {
    if added == [] then []
    else if exists i :: 0 <= i < |existing| && rules.issueKey(existing[i]) == rules.issueKey(added[0]) then NewIssues(rules, existing, added[1..])
    else [added[0]] + NewIssues(rules, existing, added[1..])
  }

  function AuditQuality(input: Input, round: nat, sections: seq<DraftSection>): Outcome<seq<Issue>> {
    match input.oracles.quality(round, sections)
    case QualityFailed => Failed
    case Reviewed(issues) => Done(issues + NewIssues(input.rules, issues, input.rules.deterministicIssues(sections)))
  }

  /** auditDocument: both audits of the exact wording, joined. */
  function AuditDocument(input: Input, round: nat, sections: seq<DraftSection>): Outcome<Audit> {
    var grounding :- AuditGrounding(input, round, sections);
    var quality :- AuditQuality(input, round, sections);
    Done(Audit(grounding + quality, forall i :: 0 <= i < |grounding| ==> !IsIncompleteGrounding(grounding[i])))
  }

  /** `decision === "changes_required"` with something to repair. */
  predicate NeedsChanges(audit: Audit) {
    audit.issues != []
  }

  // ----- repairing -----

  predicate IsInfrastructureIssue(rules: Heuristics, issue: Issue) {
    issue.severity == Low && issue.category == Completeness && rules.auditWarning(issue.finding)
  }

  /** A finding that names the section and asks for its wording to change. */
  predicate RequestsRewrite(rules: Heuristics, issues: seq<Issue>, key: Text) {
    key != [] && exists i :: 0 <= i < |issues| && ConcernsSection(issues[i], key) && !IsInfrastructureIssue(rules, issues[i])
  }

  /** affectedSectionKeys. */
  function AffectedKeys(rules: Heuristics, issues: seq<Issue>, keys: seq<Text>): (r: seq<Text>)
    ensures forall k :: k in r <==> k in keys && RequestsRewrite(rules, issues, k)
  {
    if keys == [] then []
    else if RequestsRewrite(rules, issues, keys[0]) then [keys[0]] + AffectedKeys(rules, issues, keys[1..])
    else AffectedKeys(rules, issues, keys[1..])
  }

  /** mergeByKey. */
  function MergeByKey(original: seq<DraftSection>, replacements: seq<DraftSection>): (r: seq<DraftSection>)
    ensures |r| == |original|
    ensures forall i :: 0 <= i < |r| ==> r[i] == Replaced(original[i], replacements)
  {
    if original == [] then [] else [Replaced(original[0], replacements)] + MergeByKey(original[1..], replacements)
  }

  function Replaced(section: DraftSection, replacements: seq<DraftSection>): DraftSection {
    match LastWithKey(replacements, section.key)
    case Previous(p) => p
    case NoPrevious => section
  }

  /** One pass of the repair loop, up to the next audit. */
  function RepairRound(input: Input, draft: seq<DraftSection>, audit: Audit, round: nat): Outcome<seq<DraftSection>> {
    var keys := AffectedKeys(input.rules, audit.issues, TemplateKeys(input.template));
    var rewritten :- WriteSections(input, SelectSections(input.template, keys), audit.issues, Repair(round + 1), draft);
    EnsureNoBlanks(input, input.template, MergeByKey(draft, rewritten))
  }

  // ----- the section quality gate -----

  predicate IsDocumentLevel(template: seq<TemplateSection>, issue: Issue) {
    HasNoKey(issue) || !IsTemplateKey(template, issue.scope.key)
  }

  predicate IsRecoverable(issue: Issue) {
    issue.category == BlankOutput || issue.category == InstructionLeakage || issue.category == Fact
  }

  datatype Found = NotFound | Found(section: DraftSection)

  function FindSection(draft: seq<DraftSection>, key: Text): Found {
    if draft == [] then NotFound else if draft[0].key == key then Found(draft[0]) else FindSection(draft[1..], key)
  }

  /** The section holds nothing but declared placeholder tokens, its own whole-section token only alone. */
  predicate IsRecoveredBlank(rules: Heuristics, draft: seq<DraftSection>, section: TemplateSection, fallback: Text) {
    match FindSection(draft, section.key)
    case NotFound => false
    case Found(found) =>
      var parsed := rules.tokens(found.content);
      && parsed != []
      && (forall i :: 0 <= i < |parsed| ==> parsed[i] in rules.declaredTokens(section.key) || parsed[i] == fallback)
      && (fallback in parsed ==> found.content == fallback)
  }

  function Fallbacks(rules: Heuristics, template: seq<TemplateSection>): (r: Outcome<seq<Text>>)
    ensures r.Done? ==> |r.value| == |template|
    ensures r.Done? ==> forall i :: 0 <= i < |template| ==> rules.fallbackContent(template[i]) == Done(r.value[i])
  {
    if template == [] then Done([])
    else
      var first :- rules.fallbackContent(template[0]);
      var rest :- Fallbacks(rules, template[1..]);
      Done([first] + rest)
  }

  /** Inferred section keys of the recoverable document-level issues. */
  predicate IsInferred(input: Input, draft: seq<DraftSection>, issues: seq<Issue>, key: Text) {
    exists i :: 0 <= i < |issues| && IsRecoverable(issues[i]) && key in InferKeys(input, issues[i], draft)
  }

  function InferKeys(input: Input, issue: Issue, draft: seq<DraftSection>): seq<Text> {
    if !HasNoKey(issue) && IsTemplateKey(input.template, issue.scope.key) then [issue.scope.key]
    else input.rules.infer(issue, draft)
  }

  datatype Gate = Gate(draft: seq<DraftSection>, documentLevel: seq<Issue>)

  function DocumentLevelIssues(template: seq<TemplateSection>, issues: seq<Issue>, recovered: bool): (r: seq<Issue>)
    ensures forall x :: x in r <==> x in issues && IsDocumentLevel(template, x) && !(x.category == BlankOutput && recovered)
  {
    if issues == [] then []
    else
      (if IsDocumentLevel(template, issues[0]) && !(issues[0].category == BlankOutput && recovered) then [issues[0]] else [])
        + DocumentLevelIssues(template, issues[1..], recovered)
  }

  function UnrecoverableIssues(issues: seq<Issue>): (r: seq<Issue>)
    ensures forall x :: x in r <==> x in issues && !IsRecoverable(x)
  {
    if issues == [] then []
    else if IsRecoverable(issues[0]) then UnrecoverableIssues(issues[1..])
    else [issues[0]] + UnrecoverableIssues(issues[1..])
  }

  /** Isolate one section: keep it, or put the fallback of its template section in its place. */
  function Isolate(rules: Heuristics, template: seq<TemplateSection>, section: DraftSection): Outcome<DraftSection> {
    if template == [] then Done(section)
    else if template[0].key == section.key then FallbackSection(rules, template[0])
    else Isolate(rules, template[1..], section)
  }

  predicate MustIsolate(input: Input, draft: seq<DraftSection>, blocking: seq<Issue>, level: seq<Issue>, key: Text) {
    || (IsTemplateKey(input.template, key) && exists i :: 0 <= i < |blocking| && ConcernsSection(blocking[i], key))
    || IsInferred(input, draft, level, key)
    || exists i :: 0 <= i < |level| && IsRecoverable(level[i]) && InferKeys(input, level[i], draft) == []
  }

  function IsolateSections(
    input: Input, whole: seq<DraftSection>, blocking: seq<Issue>, level: seq<Issue>, draft: seq<DraftSection>)
    : (r: Outcome<seq<DraftSection>>)
    ensures r.Done? ==> |r.value| == |draft|
    ensures r.Done? ==> forall i :: 0 <= i < |draft| ==>
              Done(r.value[i]) == if MustIsolate(input, whole, blocking, level, draft[i].key)
                                  then Isolate(input.rules, input.template, draft[i]) else Done(draft[i])
  {
    if draft == [] then Done([])
    else
      var first :- if MustIsolate(input, whole, blocking, level, draft[0].key)
                   then Isolate(input.rules, input.template, draft[0]) else Done(draft[0]);
      var rest :- IsolateSections(input, whole, blocking, level, draft[1..]);
      Done([first] + rest)
  }

  /** applySectionQualityGate. */
  function QualityGate(input: Input, draft: seq<DraftSection>, blocking: seq<Issue>): Outcome<Gate> {
    var fallbacks :- Fallbacks(input.rules, input.template);
    var recovered := input.template != []
      && forall i :: 0 <= i < |input.template| ==> IsRecoveredBlank(input.rules, draft, input.template[i], fallbacks[i]);
    var level := DocumentLevelIssues(input.template, blocking, recovered);
    var isolated :- IsolateSections(input, draft, blocking, level, draft);
    Done(Gate(isolated, UnrecoverableIssues(level)))
  }

  /** applyAuditedDraft. */
  function ApplyAudit(input: Input, draft: seq<DraftSection>, audit: Audit): Outcome<seq<DraftSection>> {
    if !audit.groundingComplete then Failed
    else
      var gate :- QualityGate(input, draft, BlockingIssues(audit.issues));
      if gate.documentLevel != [] then Failed else Done(gate.draft)
  }

  // ----- the final cleanup -----

  const CLEANUP: Issue := Issue(High, InstructionLeakage, Unscoped, InstructionsInOutput)

  datatype FoundTemplate = NoTemplate | FoundTemplate(section: TemplateSection)

  function FindTemplate(template: seq<TemplateSection>, key: Text): (r: FoundTemplate)
    ensures r.FoundTemplate? ==> r.section in template && r.section.key == key
  {
    if template == [] then NoTemplate
    else if template[0].key == key then FoundTemplate(template[0])
    else FindTemplate(template[1..], key)
  }

  /** What the cleanup leaves alone; the hint of the template section is part of the judgement. */
  predicate IsClean(rules: Heuristics, section: DraftSection, t: FoundTemplate) {
    !rules.leaky(section) && !rules.weak(section.content, t)
  }

  /** What enforceFinalText pushes for one section. */
  function EnforceSection(input: Input, section: DraftSection): (r: Outcome<DraftSection>)
    ensures r.Done? ==> r.value.key == section.key
    ensures IsClean(input.rules, section, FindTemplate(input.template, section.key)) ==> r == Done(section)
  {
    var rules := input.rules;
    if IsClean(rules, section, FindTemplate(input.template, section.key)) then Done(section)
    else match FindTemplate(input.template, section.key)
      case FoundTemplate(t) =>
        var retry :- WriteSection(input, t, [CLEANUP.(scope := Scoped(section.key))], FinalRepair, Previous(section));
        if IsClean(rules, retry, FoundTemplate(t)) then Done(retry)
        else
          var salvaged := rules.strip(retry.content);
          var stripped := if salvaged != [] then salvaged else rules.strip(section.content);
          if stripped == [] then FallbackSection(rules, t) else Done(retry.(content := stripped))
      case NoTemplate =>
        var stripped := rules.strip(section.content);
        if stripped == [] || rules.weak(stripped, NoTemplate) then FallbackSection(rules, TemplateSection(section.key, section.title))
        else Done(section.(content := stripped))
  }

  function EnforceSections(input: Input, draft: seq<DraftSection>): Outcome<seq<DraftSection>> {
    if draft == [] then Done([])
    else
      var before :- EnforceSections(input, draft[..|draft| - 1]);
      var last :- EnforceSection(input, draft[|draft| - 1]);
      Done(before + [last])
  }

  lemma {:induction false} EnforcedLast(input: Input, front: seq<DraftSection>, s: DraftSection)
    requires EnforceSections(input, front + [s]).Done?
    ensures EnforceSections(input, front).Done? && EnforceSection(input, s).Done?
    ensures EnforceSections(input, front + [s]).value == EnforceSections(input, front).value + [EnforceSection(input, s).value]
    ensures EnforceSection(input, s).value.key == s.key
  {
    hide EnforceSection;
    assert (front + [s])[..|front + [s]| - 1] == front;
  }

  lemma {:induction false} EnforcedKeys(input: Input, draft: seq<DraftSection>)
    requires EnforceSections(input, draft).Done?
    ensures SectionKeys(EnforceSections(input, draft).value) == SectionKeys(draft)
  {
    hide EnforceSection, SectionKeys;
    if draft != [] {
      var front, s := draft[..|draft| - 1], draft[|draft| - 1];
      assert draft == front + [s];
      EnforcedLast(input, front, s);
      EnforcedKeys(input, front);
      KeysAppend(front, s);
      KeysAppend(EnforceSections(input, front).value, EnforceSection(input, s).value);
    }
  }

  lemma {:induction false} KeysAppend(front: seq<DraftSection>, last: DraftSection)
    ensures SectionKeys(front + [last]) == SectionKeys(front) + [last.key]
  {
  }

  // ----- a whole run -----

  datatype AuditedRound = AuditedRound(round: nat, sections: seq<DraftSection>, audit: Audit)

  /** The returned wording, with every audit of the run in order. */
  datatype Run = Run(sections: seq<DraftSection>, history: seq<AuditedRound>)

  function Last(history: seq<AuditedRound>): AuditedRound
    requires history != []
  {
    history[|history| - 1]
  }

  function FirstRound(input: Input): Outcome<AuditedRound> {
    if !input.oracles.planned then Failed
    else
      var written :- WriteSections(input, input.template, [], Draft, []);
      var draft :- EnsureNoBlanks(input, input.template, written);
      var audit :- AuditDocument(input, 0, draft);
      Done(AuditedRound(0, draft, audit))
  }

  /** The repair loop from a given round on. */
  function Repairs(input: Input, history: seq<AuditedRound>, round: nat): (r: Outcome<seq<AuditedRound>>)
    requires history != []
    ensures r.Done? ==> r.value != []
    decreases 2 - round
  {
    if round < 2 && NeedsChanges(Last(history).audit) then
      var draft :- RepairRound(input, Last(history).sections, Last(history).audit, round);
      var audit :- AuditDocument(input, round + 1, draft);
      Repairs(input, history + [AuditedRound(round + 1, draft, audit)], round + 1)
    else Done(history)
  }

  /** Gate, cleanup and, when the cleanup changed the wording, one more audit and gate. */
  function Finish(input: Input, history: seq<AuditedRound>): Outcome<Run>
    requires history != []
  {
    var gated :- ApplyAudit(input, Last(history).sections, Last(history).audit);
    var guarded :- EnsureNoBlanks(input, input.template, gated);
    CleanUp(input, history, guarded)
  }

  function CleanUp(input: Input, history: seq<AuditedRound>, guarded: seq<DraftSection>): Outcome<Run>
    requires history != []
  {
    var sections :- EnforceSections(input, guarded);
    if sections == guarded then Conclude(input, Run(sections, history))
    else
      var audit :- AuditDocument(input, 3, sections);
      var final :- ApplyAudit(input, sections, audit);
      Conclude(input, Run(final, history + [AuditedRound(3, sections, audit)]))
  }

  /** assertPlaceholderIntegrity. */
  function Conclude(input: Input, run: Run): Outcome<Run> {
    if input.rules.integrity(run.sections) then Done(run) else Failed
  }

  function Pipeline(input: Input): Outcome<Run> {
    var first :- FirstRound(input);
    var history :- Repairs(input, [first], 0);
    Finish(input, history)
  }

  /** The loop of enforceFinalText. */
  method EnforceFinalText(input: Input, draft: seq<DraftSection>) returns (r: Outcome<seq<DraftSection>>)
    ensures r == EnforceSections(input, draft)
  {
    var cleaned: seq<DraftSection> := [];
    var i := 0;
    while i < |draft|
      invariant 0 <= i <= |draft|
      invariant EnforceSections(input, draft[..i]) == Done(cleaned)
    {
      assert draft[..i + 1][..i] == draft[..i];
      var section := EnforceSection(input, draft[i]);
      if section.Failed? {
        EnforcementStops(input, draft, i + 1);
        return Failed;
      }
      cleaned := cleaned + [section.value];
      i := i + 1;
    }
    assert draft[..i] == draft;
    r := Done(cleaned);
  }

  lemma {:induction false} EnforcementStops(input: Input, draft: seq<DraftSection>, n: nat)
    requires n <= |draft| && EnforceSections(input, draft[..n]).Failed?
    ensures EnforceSections(input, draft).Failed?
    decreases |draft| - n
  {
    if n < |draft| {
      assert draft[..n + 1][..n] == draft[..n];
      EnforcementStops(input, draft, n + 1);
    } else {
      assert draft[..n] == draft;
    }
  }

  /** runDocumentPipeline. */
  method RunDocumentPipeline(input: Input) returns (r: Outcome<Run>)
    ensures r == Pipeline(input)
    ensures DistinctKeys(input.template) && r.Done? ==> IsSafeRun(input, r.value)
  {
    if DistinctKeys(input.template) {
      PipelineIsSafe(input);
    }
    var first := FirstRound(input);
    if first.Failed? {
      return Failed;
    }
    var history, draft, audit := [first.value], first.value.sections, first.value.audit;
    var repairRound := 0;
    while repairRound < 2 && NeedsChanges(audit)
      invariant 0 <= repairRound <= 2
      invariant history != [] && draft == Last(history).sections && audit == Last(history).audit
      invariant Repairs(input, [first.value], 0) == Repairs(input, history, repairRound)
      decreases 2 - repairRound
    {
      var repaired := RepairRound(input, draft, audit, repairRound);
      if repaired.Failed? {
        return Failed;
      }
      draft := repaired.value;
      var reviewed := AuditDocument(input, repairRound + 1, draft);
      if reviewed.Failed? {
        return Failed;
      }
      audit := reviewed.value;
      repairRound := repairRound + 1;
      history := history + [AuditedRound(repairRound, draft, audit)];
    }
    var gated := ApplyAudit(input, draft, audit);
    if gated.Failed? {
      return Failed;
    }
    var guarded := EnsureNoBlanks(input, input.template, gated.value);
    if guarded.Failed? {
      return Failed;
    }
    var enforced := EnforceFinalText(input, guarded.value);
    if enforced.Failed? {
      return Failed;
    }
    var sections := enforced.value;
    if sections != guarded.value {
      var finalAudit := AuditDocument(input, 3, sections);
      if finalAudit.Failed? {
        return Failed;
      }
      history := history + [AuditedRound(3, sections, finalAudit.value)];
      var final := ApplyAudit(input, sections, finalAudit.value);
      if final.Failed? {
        return Failed;
      }
      sections := final.value;
    }
    r := Conclude(input, Run(sections, history));
  }

  // ----- what a run that returns guarantees -----

  predicate DistinctKeys(template: seq<TemplateSection>) {
    forall i, j :: 0 <= i < j < |template| ==> template[i].key != template[j].key
  }

  /** The quality auditor has already reported an issue with this key. */
  predicate IsReported(rules: Heuristics, reported: seq<Issue>, issue: Issue) {
    exists i :: 0 <= i < |reported| && rules.issueKey(reported[i]) == rules.issueKey(issue)
  }

  /** The last entry the auditor gave for a unit. */
  predicate IsLastFor(entries: seq<Entry>, k: nat, id: Text) {
    k < |entries| && entries[k].unitId == id && forall j :: k < j < |entries| ==> entries[j].unitId != id
  }

  /** A quote that counts: with a letter or digit, and found in the source. */
  predicate IsFound(input: Input, quote: Text) {
    && input.rules.lettered(input.rules.normalise(quote))
    && exists at: nat :: at <= |input.rules.normalise(input.source)| && OccursAt(input.rules.normalise(input.source), input.rules.normalise(quote), at)
  }

  /** The entry faults nothing, and is a convention, guidance, or support in which every quote is found, and there is one. */
  predicate EntryVouches(input: Input, e: Entry) {
    && (forall i :: 0 <= i < |e.unsupported| ==> e.unsupported[i] == [])
    && match e.classification
       case Convention => true
       case Guidance => true
       case Supported =>
         && (exists i :: 0 <= i < |e.quotes| && e.quotes[i] != [])
         && forall i :: 0 <= i < |e.quotes| && e.quotes[i] != [] ==> IsFound(input, e.quotes[i])
       case _ => false
  }

  predicate EntryRejects(e: Entry) {
    e.classification == Unsupported || exists i :: 0 <= i < |e.unsupported| && e.unsupported[i] != []
  }

  predicate Vouches(input: Input, entries: seq<Entry>, id: Text) {
    exists k :: 0 <= k < |entries| && IsLastFor(entries, k, id) && EntryVouches(input, entries[k])
  }

  predicate Rejects(entries: seq<Entry>, id: Text) {
    exists k :: 0 <= k < |entries| && IsLastFor(entries, k, id) && EntryRejects(entries[k])
  }

  /** What a unit that nothing vouches for is reported as: a fault when it was rejected, else a gap in the audit. */
  predicate ReportsUnit(unit: FactualUnit, rejected: bool, issue: Issue) {
    && issue.scope == Scoped(unit.sectionKey)
    && if rejected then issue.severity == High && issue.category == Fact else issue.severity == Low && issue.category == Completeness
  }

  /** The issue reports a factual unit of these sections that nothing vouches for, or that there is none. */
  ghost predicate IsGroundingIssue(input: Input, r: AuditedRound, issue: Issue) {
    var units := FactualUnits(input.rules, r.sections);
    if units == [] then issue == NO_WORDING
    else
      var reply := input.oracles.grounding(r.round, units);
      reply.Graded? && exists u :: u in units && !Vouches(input, reply.entries, u.id) && ReportsUnit(u, Rejects(reply.entries, u.id), issue)
  }

  /** Every unit that nothing vouches for is reported, and the audit is complete when all of those were rejected. */
  ghost predicate HearsGrounding(input: Input, r: AuditedRound) {
    var units := FactualUnits(input.rules, r.sections);
    if units == [] then NO_WORDING in r.audit.issues && r.audit.groundingComplete
    else
      var reply := input.oracles.grounding(r.round, units);
      && reply.Graded?
      && (forall u :: u in units && !Vouches(input, reply.entries, u.id) ==>
            exists x :: x in r.audit.issues && ReportsUnit(u, Rejects(reply.entries, u.id), x))
      && (r.audit.groundingComplete <==>
            forall u :: u in units ==> Vouches(input, reply.entries, u.id) || Rejects(reply.entries, u.id))
  }

  /** Every issue of the quality auditor is in the audit, every deterministic one that is not a repetition, and no other ones but those of grounding. */
  ghost predicate HearsQuality(input: Input, r: AuditedRound) {
    var reply, fixed := input.oracles.quality(r.round, r.sections), input.rules.deterministicIssues(r.sections);
    && reply.Reviewed?
    && (forall x :: x in reply.issues ==> x in r.audit.issues)
    && (forall x :: x in fixed && !IsReported(input.rules, reply.issues, x) ==> x in r.audit.issues)
    && (forall x :: x in r.audit.issues ==>
          x in reply.issues || (x in fixed && !IsReported(input.rules, reply.issues, x)) || IsGroundingIssue(input, r, x))
  }

  ghost predicate IsRecorded(input: Input, r: AuditedRound) {
    && AuditDocument(input, r.round, r.sections) == Done(r.audit)
    && SectionKeys(r.sections) == TemplateKeys(input.template)
    && HearsQuality(input, r)
    && HearsGrounding(input, r)
  }

  /** A repair keeps, position by position, every section no finding asks to rewrite. */
  predicate RepairsOnlyAffected(input: Input, before: AuditedRound, after: AuditedRound) {
    && |before.sections| == |after.sections|
    && forall i :: 0 <= i < |before.sections| && !RequestsRewrite(input.rules, before.audit.issues, before.sections[i].key) ==>
         after.sections[i] == before.sections[i]
  }

  /** A repair round follows an audit that asked for changes, and rewrites only what it faulted. */
  predicate IsLinked(input: Input, before: AuditedRound, after: AuditedRound) {
    after.round <= 2 ==> NeedsChanges(before.audit) && RepairsOnlyAffected(input, before, after)
  }

  /** Rounds 0, 1 and 2 are consecutive repairs; only the last audit may be the one of the cleaned wording. */
  ghost predicate IsHistory(input: Input, history: seq<AuditedRound>) {
    && 1 <= |history| <= 4
    && (forall k :: 0 <= k < |history| ==> IsRecorded(input, history[k]))
    && (forall k :: 0 <= k < |history| ==> history[k].round == k || (k == |history| - 1 && history[k].round == 3))
    && (forall k :: 0 < k < |history| ==> IsLinked(input, history[k - 1], history[k]))
  }

  predicate HasBlockingIssue(audit: Audit, key: Text) {
    exists i :: 0 <= i < |audit.issues| && audit.issues[i].severity != Low && audit.issues[i].scope == Scoped(key)
  }

  /** Every factual unit of the section was graded, and graded as convention, guidance or quoted support. */
  ghost predicate EveryUnitIsGrounded(input: Input, r: AuditedRound, section: DraftSection) {
    forall u :: u in SectionUnits(section.key, input.rules.unitTexts(section)) ==> UnitIsGrounded(input, r, u)
  }

  ghost predicate UnitIsGrounded(input: Input, r: AuditedRound, u: FactualUnit) {
    var reply := input.oracles.grounding(r.round, FactualUnits(input.rules, r.sections));
    reply.Graded? && Vouches(input, reply.entries, u.id)
  }

  /** The quality auditor's own answer on these sections has a medium or high issue with this section. */
  predicate AuditorFaults(input: Input, r: AuditedRound, key: Text) {
    var reply := input.oracles.quality(r.round, r.sections);
    reply.Reviewed? && exists i :: 0 <= i < |reply.issues| && reply.issues[i].severity != Low && reply.issues[i].scope == Scoped(key)
  }

  /** Wording that leaves the pipeline: exactly the audited wording, faulted by neither audit. */
  ghost predicate IsApproved(input: Input, last: AuditedRound, section: DraftSection, i: nat) {
    && i < |last.sections|
    && section == last.sections[i]
    && !HasBlockingIssue(last.audit, section.key)
    && !AuditorFaults(input, last, section.key)
    && EveryUnitIsGrounded(input, last, section)
  }

  /** A medium or high finding about the whole document. */
  predicate IsDocumentFault(input: Input, issue: Issue) {
    issue.severity != Low && (issue.scope.Unscoped? || issue.scope.key == [] || !IsTemplateKey(input.template, issue.scope.key))
  }

  /** Every template section of the audited draft holds nothing but its declared placeholder tokens. */
  predicate IsRecovered(input: Input, audited: seq<DraftSection>) {
    input.template != [] && forall i :: 0 <= i < |input.template| ==> RecoversBlank(input, audited, input.template[i])
  }

  /** The wording is made of declared tokens or the slot's, and of the slot's only if it is the whole wording. */
  predicate RecoversBlank(input: Input, audited: seq<DraftSection>, t: TemplateSection) {
    exists k :: 0 <= k < |audited| && IsFirstWith(audited, k, t.key) && HoldsTokensOnly(input, t, audited[k].content)
  }

  predicate IsFirstWith(sections: seq<DraftSection>, k: nat, key: Text) {
    k < |sections| && sections[k].key == key && forall j :: 0 <= j < k ==> sections[j].key != key
  }

  predicate HoldsTokensOnly(input: Input, t: TemplateSection, content: Text) {
    var slot, parsed := input.rules.fallbackContent(t), input.rules.tokens(content);
    && slot.Done? && |parsed| > 0
    && (forall x :: x in parsed ==> x == slot.value || x in input.rules.declaredTokens(t.key))
    && (slot.value in parsed ==> content == slot.value)
  }

  /**
   A fault that may still be isolated has been: in the sections it is about, or else in
   all of them. Only a report of blank output is passed over, when the blanks are
   recovered placeholders.
   */
  predicate IsIsolated(input: Input, audited: seq<DraftSection>, sections: seq<DraftSection>, issue: Issue) {
    var keys := input.rules.infer(issue, audited);
    && (issue.category == BlankOutput || issue.category == InstructionLeakage || issue.category == Fact)
    && (!(issue.category == BlankOutput && IsRecovered(input, audited)) ==>
          forall i :: 0 <= i < |sections| && (keys == [] || sections[i].key in keys) ==> IsFallback(input, sections[i]))
  }

  ghost predicate IsSafeRun(input: Input, run: Run) {
    && IsHistory(input, run.history)
    && Last(run.history).audit.groundingComplete
    && SectionKeys(run.sections) == TemplateKeys(input.template)
    && (forall i :: 0 <= i < |run.sections| ==>
          IsFallback(input, run.sections[i]) || IsApproved(input, Last(run.history), run.sections[i], i))
    && (forall x :: x in Last(run.history).audit.issues && IsDocumentFault(input, x) ==>
          IsIsolated(input, Last(run.history).sections, run.sections, x))
  }

  // ----- proof -----

  lemma {:induction false} LastOfDistinct(sections: seq<DraftSection>, template: seq<TemplateSection>, i: nat)
    requires SectionKeys(sections) == TemplateKeys(template) && DistinctKeys(template) && i < |sections|
    ensures LastWithKey(sections, sections[i].key) == Previous(sections[i])
  {
    assert |sections| == |template|;
    assert forall k :: 0 <= k < |sections| ==> sections[k].key == SectionKeys(sections)[k] == template[k].key;
    LastAmongLater(sections, i);
  }

  lemma {:induction false} LastAmongLater(sections: seq<DraftSection>, i: nat)
    requires i < |sections|
    requires forall j :: i < j < |sections| ==> sections[j].key != sections[i].key
    ensures LastWithKey(sections, sections[i].key) == Previous(sections[i])
  {
    if i < |sections| - 1 {
      LastAmongLater(sections[..|sections| - 1], i);
    }
  }

  lemma {:induction false} SameKeys(sections: seq<DraftSection>, template: seq<TemplateSection>)
    requires |sections| == |template| && forall i :: 0 <= i < |template| ==> sections[i].key == template[i].key
    ensures SectionKeys(sections) == TemplateKeys(template)
  {
  }

  lemma {:induction false} KeysAt(sections: seq<DraftSection>, template: seq<TemplateSection>)
    requires SectionKeys(sections) == TemplateKeys(template)
    ensures |sections| == |template|
    ensures forall i :: 0 <= i < |template| ==> sections[i].key == template[i].key && IsTemplateKey(template, sections[i].key)
  {
    assert |SectionKeys(sections)| == |TemplateKeys(template)|;
    forall i | 0 <= i < |template| ensures sections[i].key == template[i].key {
      assert SectionKeys(sections)[i] == TemplateKeys(template)[i];
    }
  }

  lemma {:induction false} EnsuredKeys(input: Input, draft: seq<DraftSection>)
    requires EnsureNoBlanks(input, input.template, draft).Done?
    ensures SectionKeys(EnsureNoBlanks(input, input.template, draft).value) == TemplateKeys(input.template)
  {
    var r := EnsureNoBlanks(input, input.template, draft).value;
    forall i | 0 <= i < |r| ensures r[i].key == input.template[i].key {
      assert Done(r[i]) == EnsureNotBlank(input, input.template[i], draft);
    }
    SameKeys(r, input.template);
  }

  lemma {:induction false} EnsuredAt(input: Input, draft: seq<DraftSection>, i: nat)
    requires DistinctKeys(input.template) && SectionKeys(draft) == TemplateKeys(input.template)
    requires EnsureNoBlanks(input, input.template, draft).Done? && i < |draft|
    ensures |EnsureNoBlanks(input, input.template, draft).value| == |draft|
    ensures Done(EnsureNoBlanks(input, input.template, draft).value[i]) ==
            if input.rules.blank(draft[i].content) then FallbackSection(input.rules, input.template[i]) else Done(draft[i])
  {
    KeysAt(draft, input.template);
    LastOfDistinct(draft, input.template, i);
    var r := EnsureNoBlanks(input, input.template, draft).value;
    assert Done(r[i]) == EnsureNotBlank(input, input.template[i], draft);
  }

  /** A draft that has been through ensureNoBlankSections: a blank section in it is already the fallback. */
  predicate IsSettled(input: Input, draft: seq<DraftSection>) {
    && SectionKeys(draft) == TemplateKeys(input.template)
    && forall i :: 0 <= i < |draft| && i < |input.template| && input.rules.blank(draft[i].content) ==>
         FallbackSection(input.rules, input.template[i]) == Done(draft[i])
  }

  lemma {:induction false} EnsuredIsSettled(input: Input, draft: seq<DraftSection>)
    requires EnsureNoBlanks(input, input.template, draft).Done?
    ensures IsSettled(input, EnsureNoBlanks(input, input.template, draft).value)
  {
    EnsuredKeys(input, draft);
    var r := EnsureNoBlanks(input, input.template, draft).value;
    forall i | 0 <= i < |r| && input.rules.blank(r[i].content) ensures FallbackSection(input.rules, input.template[i]) == Done(r[i]) {
      assert Done(r[i]) == EnsureNotBlank(input, input.template[i], draft);
    }
  }

  lemma {:induction false} WrittenKeysAreSelected(template: seq<TemplateSection>, keys: seq<Text>, written: seq<DraftSection>)
    requires SectionKeys(written) == TemplateKeys(SelectSections(template, keys))
    ensures forall key :: key in SectionKeys(written) ==> key in keys
  {
    var selected := SelectSections(template, keys);
    forall key | key in SectionKeys(written) ensures key in keys {
      var i :| 0 <= i < |selected| && TemplateKeys(selected)[i] == key;
      assert selected[i] in selected;
    }
  }

  lemma {:induction false} MergedKeys(draft: seq<DraftSection>, written: seq<DraftSection>, template: seq<TemplateSection>)
    requires SectionKeys(draft) == TemplateKeys(template)
    ensures SectionKeys(MergeByKey(draft, written)) == TemplateKeys(template)
  {
    hide SectionKeys, TemplateKeys, MergeByKey, IsTemplateKey;
    KeysAt(draft, template);
    var merged := MergeByKey(draft, written);
    forall i | 0 <= i < |merged| ensures merged[i].key == template[i].key {
      assert merged[i] == Replaced(draft[i], written);
    }
    SameKeys(merged, template);
  }

  lemma {:induction false} UnwrittenIsKept(section: DraftSection, written: seq<DraftSection>, keys: seq<Text>)
    requires section.key !in keys && forall key :: key in SectionKeys(written) ==> key in keys
    ensures Replaced(section, written) == section
  {
    forall i | 0 <= i < |written| ensures written[i].key != section.key {
      assert SectionKeys(written)[i] in keys;
    }
  }

  lemma {:induction false} EnsureKeepsSettled(input: Input, draft: seq<DraftSection>, merged: seq<DraftSection>, i: nat)
    requires DistinctKeys(input.template) && IsSettled(input, draft) && SectionKeys(merged) == TemplateKeys(input.template)
    requires EnsureNoBlanks(input, input.template, merged).Done? && |merged| == |draft| == |input.template|
    requires i < |draft| && merged[i] == draft[i]
    ensures EnsureNoBlanks(input, input.template, merged).value[i] == draft[i]
  {
    hide EnsureNoBlanks, SectionKeys, TemplateKeys, DistinctKeys, FallbackSection;
    EnsuredAt(input, merged, i);
  }

  /** Sections outside `affectedSectionKeys` come through a repair round unchanged. */
  lemma {:induction false} RepairKeepsUnaffected(input: Input, draft: seq<DraftSection>, audit: Audit, round: nat)
    requires DistinctKeys(input.template) && IsSettled(input, draft) && RepairRound(input, draft, audit, round).Done?
    ensures var r := RepairRound(input, draft, audit, round).value;
            && IsSettled(input, r)
            && |r| == |draft|
            && forall i :: 0 <= i < |r| && !RequestsRewrite(input.rules, audit.issues, draft[i].key) ==> r[i] == draft[i]
  {
    hide AffectedKeys, SelectSections, WriteSections, MergeByKey, Replaced, EnsureNoBlanks, SectionKeys, TemplateKeys,
         DistinctKeys, RequestsRewrite, IsTemplateKey, LastWithKey;
    KeysAt(draft, input.template);
    var keys := AffectedKeys(input.rules, audit.issues, TemplateKeys(input.template));
    var written := WriteSections(input, SelectSections(input.template, keys), audit.issues, Repair(round + 1), draft).value;
    var merged := MergeByKey(draft, written);
    MergedKeys(draft, written, input.template);
    EnsuredIsSettled(input, merged);
    WrittenKeysAreSelected(input.template, keys, written);
    forall i | 0 <= i < |merged| && !RequestsRewrite(input.rules, audit.issues, draft[i].key)
      ensures RepairRound(input, draft, audit, round).value[i] == draft[i]
    {
      UnwrittenIsKept(draft[i], written, keys);
      EnsureKeepsSettled(input, draft, merged, i);
    }
  }

  lemma {:induction false} IsolatedIsFallback(input: Input, template: seq<TemplateSection>, section: DraftSection)
    requires forall i :: 0 <= i < |template| ==> template[i] in input.template
    requires IsTemplateKey(template, section.key) && Isolate(input.rules, template, section).Done?
    ensures IsFallback(input, Isolate(input.rules, template, section).value)
  {
    if template[0].key == section.key {
      var i :| 0 <= i < |input.template| && input.template[i] == template[0];
      assert FallbackSection(input.rules, input.template[i]) == Done(Isolate(input.rules, template, section).value);
    } else {
      IsolatedIsFallback(input, template[1..], section);
    }
  }

  /** The document-level issues the gate sees in an audited round. */
  function GateLevel(input: Input, r: AuditedRound): seq<Issue>
    requires Fallbacks(input.rules, input.template).Done?
  {
    var fallbacks := Fallbacks(input.rules, input.template).value;
    var recovered := input.template != []
      && forall i :: 0 <= i < |input.template| ==> IsRecoveredBlank(input.rules, r.sections, input.template[i], fallbacks[i]);
    DocumentLevelIssues(input.template, BlockingIssues(r.audit.issues), recovered)
  }

  /** The sections the gate isolates in an audited round. */
  predicate GateIsolates(input: Input, r: AuditedRound, key: Text)
    requires Fallbacks(input.rules, input.template).Done?
  {
    MustIsolate(input, r.sections, BlockingIssues(r.audit.issues), GateLevel(input, r), key)
  }

  lemma {:induction false} GateAt(input: Input, r: AuditedRound)
    requires ApplyAudit(input, r.sections, r.audit).Done?
    ensures r.audit.groundingComplete && Fallbacks(input.rules, input.template).Done?
    ensures UnrecoverableIssues(GateLevel(input, r)) == []
    ensures var passed := ApplyAudit(input, r.sections, r.audit).value;
            && |passed| == |r.sections|
            && forall i :: 0 <= i < |passed| ==>
                 Done(passed[i]) == if GateIsolates(input, r, r.sections[i].key)
                                    then Isolate(input.rules, input.template, r.sections[i]) else Done(r.sections[i])
  {
    assert IsolateSections(input, r.sections, BlockingIssues(r.audit.issues), GateLevel(input, r), r.sections).Done?;
  }

  /** A blocking issue scoped to a template section makes the gate isolate it. */
  lemma {:induction false} FaultedIsIsolated(input: Input, r: AuditedRound, key: Text)
    requires Fallbacks(input.rules, input.template).Done?
    requires IsTemplateKey(input.template, key) && HasBlockingIssue(r.audit, key)
    ensures GateIsolates(input, r, key)
  {
    var blocking := BlockingIssues(r.audit.issues);
    var i :| 0 <= i < |r.audit.issues| && IsBlocking(r.audit.issues[i]) && ConcernsSection(r.audit.issues[i], key);
    assert r.audit.issues[i] in blocking;
    var j :| 0 <= j < |blocking| && blocking[j] == r.audit.issues[i];
    assert ConcernsSection(blocking[j], key);
  }

  /** What one pass of the audit gate lets through. */
  lemma {:induction false} GateIsSafe(input: Input, r: AuditedRound)
    requires IsRecorded(input, r) && ApplyAudit(input, r.sections, r.audit).Done?
    ensures var passed := ApplyAudit(input, r.sections, r.audit).value;
            && SectionKeys(passed) == TemplateKeys(input.template)
            && (forall i :: 0 <= i < |passed| ==> IsFallback(input, passed[i]) || IsApproved(input, r, passed[i], i))
            && (forall x :: x in r.audit.issues && IsDocumentFault(input, x) ==> IsIsolated(input, r.sections, passed, x))
  {
    var passed := ApplyAudit(input, r.sections, r.audit).value;
    GateAt(input, r);
    KeysAt(r.sections, input.template);
    forall i | 0 <= i < |passed|
      ensures passed[i].key == r.sections[i].key
      ensures GateIsolates(input, r, r.sections[i].key) ==> IsFallback(input, passed[i])
      ensures IsFallback(input, passed[i]) || IsApproved(input, r, passed[i], i)
    {
      GatedSectionIsSafe(input, r, passed[i], i);
    }
    SameKeys(passed, input.template);
    forall x | x in r.audit.issues && IsDocumentFault(input, x) ensures IsIsolated(input, r.sections, passed, x) {
      FaultIsIsolated(input, r, passed, x);
    }
  }

  lemma {:induction false} GatedSectionIsSafe(input: Input, r: AuditedRound, passed: DraftSection, i: nat)
    requires IsRecorded(input, r) && r.audit.groundingComplete && Fallbacks(input.rules, input.template).Done?
    requires i < |r.sections| && IsTemplateKey(input.template, r.sections[i].key)
    requires Done(passed) == if GateIsolates(input, r, r.sections[i].key)
                             then Isolate(input.rules, input.template, r.sections[i]) else Done(r.sections[i])
    ensures passed.key == r.sections[i].key
    ensures GateIsolates(input, r, r.sections[i].key) ==> IsFallback(input, passed)
    ensures IsFallback(input, passed) || IsApproved(input, r, passed, i)
  {
    if GateIsolates(input, r, r.sections[i].key) {
      IsolatedIsFallback(input, input.template, r.sections[i]);
      IsolateKeepsKey(input.rules, input.template, r.sections[i]);
    } else {
      UnisolatedIsApproved(input, r, i);
    }
  }

  lemma {:induction false} IsolateKeepsKey(rules: Heuristics, template: seq<TemplateSection>, section: DraftSection)
    requires Isolate(rules, template, section).Done?
    ensures Isolate(rules, template, section).value.key == section.key
  {
    if template != [] && template[0].key != section.key {
      IsolateKeepsKey(rules, template[1..], section);
    }
  }

  lemma {:induction false} AuditorIsHeard(input: Input, r: AuditedRound, key: Text)
    requires HearsQuality(input, r)
    ensures AuditorFaults(input, r, key) ==> HasBlockingIssue(r.audit, key)
  {
    hide IsReported, IsGroundingIssue;
    if AuditorFaults(input, r, key) {
      var issues := input.oracles.quality(r.round, r.sections).issues;
      var i :| 0 <= i < |issues| && issues[i].severity != Low && issues[i].scope == Scoped(key);
      assert issues[i] in r.audit.issues;
      var n :| 0 <= n < |r.audit.issues| && r.audit.issues[n] == issues[i];
      assert r.audit.issues[n].severity != Low;
    }
  }

  lemma {:induction false} UnisolatedIsApproved(input: Input, r: AuditedRound, i: nat)
    requires IsRecorded(input, r) && r.audit.groundingComplete && Fallbacks(input.rules, input.template).Done?
    requires i < |r.sections| && IsTemplateKey(input.template, r.sections[i].key)
    requires !GateIsolates(input, r, r.sections[i].key)
    ensures IsApproved(input, r, r.sections[i], i)
  {
    hide AuditDocument, GateIsolates, HearsGrounding, EveryUnitIsGrounded, FactualUnits, IsReported;
    if HasBlockingIssue(r.audit, r.sections[i].key) {
      FaultedIsIsolated(input, r, r.sections[i].key);
    }
    UnfaultedIsGrounded(input, r, i);
    AuditorIsHeard(input, r, r.sections[i].key);
  }

  lemma {:induction false} FindsFirst(sections: seq<DraftSection>, key: Text)
    ensures FindSection(sections, key).Found? ==> exists k :: 0 <= k < |sections| && IsFirstWith(sections, k, key) && sections[k] == FindSection(sections, key).section
    ensures FindSection(sections, key).NotFound? ==> forall k :: 0 <= k < |sections| ==> !IsFirstWith(sections, k, key)
  {
    if sections != [] {
      if sections[0].key == key {
        assert IsFirstWith(sections, 0, key);
      } else {
        var rest := sections[1..];
        FindsFirst(rest, key);
        if FindSection(rest, key).Found? {
          var k :| 0 <= k < |rest| && IsFirstWith(rest, k, key) && rest[k] == FindSection(rest, key).section;
          assert IsFirstWith(sections, k + 1, key) && sections[k + 1] == rest[k];
        } else {
          forall k | 0 <= k < |sections| ensures !IsFirstWith(sections, k, key) {
            if k > 0 && IsFirstWith(sections, k, key) {
              assert IsFirstWith(rest, k - 1, key);
            }
          }
        }
      }
    }
  }

  lemma {:induction false} TokensExactly(input: Input, t: TemplateSection, content: Text)
    requires input.rules.fallbackContent(t).Done?
    ensures var slot, parsed := input.rules.fallbackContent(t).value, input.rules.tokens(content);
      HoldsTokensOnly(input, t, content) <==>
        && parsed != []
        && (forall i :: 0 <= i < |parsed| ==> parsed[i] in input.rules.declaredTokens(t.key) || parsed[i] == slot)
        && (slot in parsed ==> content == slot)
  {
  }

  lemma {:induction false} RecoversExactly(input: Input, audited: seq<DraftSection>, t: TemplateSection, fallback: Text)
    requires input.rules.fallbackContent(t) == Done(fallback)
    ensures RecoversBlank(input, audited, t) <==> IsRecoveredBlank(input.rules, audited, t, fallback)
  {
    hide HoldsTokensOnly, IsFirstWith, FindSection;
    FindsFirst(audited, t.key);
    match FindSection(audited, t.key)
    case NotFound =>
    case Found(section) =>
      var k :| 0 <= k < |audited| && IsFirstWith(audited, k, t.key) && audited[k] == section;
      TokensExactly(input, t, section.content);
      forall l | 0 <= l < |audited| && IsFirstWith(audited, l, t.key) ensures l == k {
        FirstIsOne(audited, k, l, t.key);
      }
  }

  lemma {:induction false} FirstIsOne(sections: seq<DraftSection>, k: nat, l: nat, key: Text)
    requires IsFirstWith(sections, k, key) && IsFirstWith(sections, l, key)
    ensures k == l
  {
  }

  lemma {:induction false} RecoveredIsExact(input: Input, r: AuditedRound)
    requires Fallbacks(input.rules, input.template).Done?
    ensures GateLevel(input, r) == DocumentLevelIssues(input.template, BlockingIssues(r.audit.issues), IsRecovered(input, r.sections))
  {
    var fallbacks := Fallbacks(input.rules, input.template).value;
    forall i | 0 <= i < |input.template|
      ensures RecoversBlank(input, r.sections, input.template[i]) == IsRecoveredBlank(input.rules, r.sections, input.template[i], fallbacks[i])
    {
      assert input.rules.fallbackContent(input.template[i]) == Done(fallbacks[i]);
      RecoversExactly(input, r.sections, input.template[i], fallbacks[i]);
    }
  }

  lemma {:induction false} FaultIsIsolated(input: Input, r: AuditedRound, passed: seq<DraftSection>, x: Issue)
    requires Fallbacks(input.rules, input.template).Done? && UnrecoverableIssues(GateLevel(input, r)) == []
    requires |passed| == |r.sections| && forall i :: 0 <= i < |passed| ==> passed[i].key == r.sections[i].key
    requires forall i :: 0 <= i < |passed| && GateIsolates(input, r, passed[i].key) ==> IsFallback(input, passed[i])
    requires x in r.audit.issues && IsDocumentFault(input, x)
    ensures IsIsolated(input, r.sections, passed, x)
  {
    assert x in BlockingIssues(r.audit.issues);
    if !(x.category == BlankOutput && IsRecovered(input, r.sections)) {
      RecoveredIsExact(input, r);
      var level := GateLevel(input, r);
      assert x in level && x !in UnrecoverableIssues(level);
      var k :| 0 <= k < |level| && level[k] == x;
      assert InferKeys(input, x, r.sections) == input.rules.infer(x, r.sections);
      forall i | 0 <= i < |passed| && (InferKeys(input, x, r.sections) == [] || passed[i].key in InferKeys(input, x, r.sections))
        ensures IsFallback(input, passed[i])
      {
        assert IsRecoverable(level[k]);
        assert GateIsolates(input, r, passed[i].key);
      }
    }
  }

  /** In a grounding-complete audit, an ungrounded unit leaves a blocking issue on its section. */
  lemma {:induction false} UngroundedIsFaulted(input: Input, r: AuditedRound, section: DraftSection, u: FactualUnit)
    requires IsRecorded(input, r) && r.audit.groundingComplete
    requires u in FactualUnits(input.rules, r.sections) && u.sectionKey == section.key
    requires !UnitIsGrounded(input, r, u)
    ensures HasBlockingIssue(r.audit, section.key)
  {
    hide Vouches, Rejects, FactualUnits, HearsQuality, AuditDocument;
    var entries := input.oracles.grounding(r.round, FactualUnits(input.rules, r.sections)).entries;
    var x :| x in r.audit.issues && ReportsUnit(u, Rejects(entries, u.id), x);
    var n :| 0 <= n < |r.audit.issues| && r.audit.issues[n] == x;
    assert IsBlocking(r.audit.issues[n]) && ConcernsSection(r.audit.issues[n], section.key);
  }

  lemma {:induction false} UnfaultedIsGrounded(input: Input, r: AuditedRound, i: nat)
    requires IsRecorded(input, r) && r.audit.groundingComplete
    requires i < |r.sections| && !HasBlockingIssue(r.audit, r.sections[i].key)
    ensures EveryUnitIsGrounded(input, r, r.sections[i])
  {
    var section := r.sections[i];
    forall u | u in SectionUnits(section.key, input.rules.unitTexts(section)) ensures UnitIsGrounded(input, r, u) {
      if !UnitIsGrounded(input, r, u) {
        UngroundedIsFaulted(input, r, section, u);
      }
    }
  }

  lemma {:induction false} NewIssuesAre(rules: Heuristics, existing: seq<Issue>, added: seq<Issue>)
    ensures forall x :: x in NewIssues(rules, existing, added) <==> x in added && !IsReported(rules, existing, x)
  {
    if added != [] {
      NewIssuesAre(rules, existing, added[1..]);
      assert forall x :: x in added <==> x == added[0] || x in added[1..];
    }
  }

  lemma {:induction false} VerdictIsLast(entries: seq<Entry>, id: Text)
    ensures VerdictFor(entries, id).EntryFor? ==> exists k :: 0 <= k < |entries| && IsLastFor(entries, k, id) && entries[k] == VerdictFor(entries, id).entry
    ensures VerdictFor(entries, id).NoEntry? ==> forall k :: 0 <= k < |entries| ==> entries[k].unitId != id
  {
    if entries != [] {
      var n := |entries| - 1;
      if entries[n].unitId == id {
        assert IsLastFor(entries, n, id);
      } else {
        VerdictIsLast(entries[..n], id);
        if VerdictFor(entries, id).EntryFor? {
          var k :| 0 <= k < n && IsLastFor(entries[..n], k, id) && entries[..n][k] == VerdictFor(entries, id).entry;
          assert IsLastFor(entries, k, id) && entries[k] == entries[..n][k];
        } else {
          assert forall k :: 0 <= k < n ==> entries[k] == entries[..n][k];
        }
      }
    }
  }

  lemma {:induction false} LastIsOne(entries: seq<Entry>, k: nat, l: nat, id: Text)
    requires IsLastFor(entries, k, id) && IsLastFor(entries, l, id)
    ensures k == l
  {
  }

  lemma {:induction false} EvidenceExactly(input: Input, e: Entry)
    ensures HasEvidence(input, e) <==>
      && (exists i :: 0 <= i < |e.quotes| && e.quotes[i] != [])
      && forall i :: 0 <= i < |e.quotes| && e.quotes[i] != [] ==> IsFound(input, e.quotes[i])
  {
    var evidence := NonEmpty(e.quotes);
    forall q ensures IsEvidence(input, q) <==> IsFound(input, q) {
    }
    if HasEvidence(input, e) {
      assert evidence[0] in evidence;
      forall i | 0 <= i < |e.quotes| && e.quotes[i] != [] ensures IsFound(input, e.quotes[i]) {
        assert e.quotes[i] in evidence;
        var j :| 0 <= j < |evidence| && evidence[j] == e.quotes[i];
        assert IsEvidence(input, evidence[j]);
      }
    }
    if i :| 0 <= i < |e.quotes| && e.quotes[i] != [] {
      assert e.quotes[i] in evidence;
    }
    if forall i :: 0 <= i < |e.quotes| && e.quotes[i] != [] ==> IsFound(input, e.quotes[i]) {
      forall j | 0 <= j < |evidence| ensures IsEvidence(input, evidence[j]) {
        assert evidence[j] in evidence;
        var i :| 0 <= i < |e.quotes| && e.quotes[i] == evidence[j];
        assert IsFound(input, e.quotes[i]);
      }
    }
  }

  lemma {:induction false} NonEmptyExactly(texts: seq<Text>)
    ensures NonEmpty(texts) == [] <==> forall i :: 0 <= i < |texts| ==> texts[i] == []
  {
    if NonEmpty(texts) != [] {
      assert NonEmpty(texts)[0] in NonEmpty(texts);
    }
    if i :| 0 <= i < |texts| && texts[i] != [] {
      assert texts[i] in NonEmpty(texts);
    }
  }

  /** The verdict on a unit is what the last entry for it says. */
  lemma {:induction false} VerdictsExactly(input: Input, entries: seq<Entry>, id: Text)
    ensures IsGrounded(input, VerdictFor(entries, id)) <==> Vouches(input, entries, id)
    ensures IsRejected(VerdictFor(entries, id)) <==> Rejects(entries, id)
  {
    hide VerdictFor, HasEvidence, NonEmpty, IsFound, IsLastFor;
    VerdictIsLast(entries, id);
    if VerdictFor(entries, id).EntryFor? {
      var e := VerdictFor(entries, id).entry;
      var k :| 0 <= k < |entries| && IsLastFor(entries, k, id) && entries[k] == e;
      EvidenceExactly(input, e);
      NonEmptyExactly(e.unsupported);
      forall l | 0 <= l < |entries| && IsLastFor(entries, l, id) ensures l == k {
        LastIsOne(entries, k, l, id);
      }
    } else {
      forall l | 0 <= l < |entries| ensures !IsLastFor(entries, l, id) {
        NotLast(entries, l, id);
      }
    }
  }

  lemma {:induction false} NotLast(entries: seq<Entry>, k: nat, id: Text)
    requires k < |entries| && entries[k].unitId != id
    ensures !IsLastFor(entries, k, id)
  {
  }

  lemma {:induction false} UnitIssuesReport(input: Input, unit: FactualUnit, entries: seq<Entry>)
    ensures var issues := UnitIssues(input, unit, entries);
      if Vouches(input, entries, unit.id) then issues == [] else |issues| == 1 && ReportsUnit(unit, Rejects(entries, unit.id), issues[0])
  {
    hide Vouches, Rejects, VerdictFor, HasEvidence, NonEmpty;
    VerdictsExactly(input, entries, unit.id);
  }

  lemma {:induction false} GroundingIssuesAre(input: Input, units: seq<FactualUnit>, entries: seq<Entry>)
    ensures forall x :: x in GroundingIssues(input, units, entries) <==> exists u :: u in units && x in UnitIssues(input, u, entries)
  {
    hide UnitIssues;
    if units != [] {
      GroundingIssuesAre(input, units[1..], entries);
      assert forall u :: u in units <==> u == units[0] || u in units[1..];
      forall x | x in GroundingIssues(input, units, entries) ensures exists u :: u in units && x in UnitIssues(input, u, entries) {
        if x in UnitIssues(input, units[0], entries) {
          assert units[0] in units;
        } else {
          assert x in GroundingIssues(input, units[1..], entries);
          var u :| u in units[1..] && x in UnitIssues(input, u, entries);
          assert u in units;
        }
      }
    }
  }

  lemma {:induction false} IsolatedGap(input: Input, unit: FactualUnit, entries: seq<Entry>, x: Issue)
    requires x in UnitIssues(input, unit, entries)
    ensures !Vouches(input, entries, unit.id) && ReportsUnit(unit, Rejects(entries, unit.id), x)
    ensures IsIncompleteGrounding(x) <==> !Rejects(entries, unit.id)
  {
    UnitIssuesReport(input, unit, entries);
  }

  lemma {:induction false} RecordQuality(input: Input, round: nat, sections: seq<DraftSection>)
    requires AuditDocument(input, round, sections).Done?
    ensures HearsQuality(input, AuditedRound(round, sections, AuditDocument(input, round, sections).value))
  {
    hide NewIssues, UnitIssues, FactualUnits, IsReported, Vouches, ReportsUnit, Rejects, IsIncompleteGrounding;
    var r := AuditedRound(round, sections, AuditDocument(input, round, sections).value);
    var reply, units := input.oracles.quality(round, sections), FactualUnits(input.rules, sections);
    NewIssuesAre(input.rules, reply.issues, input.rules.deterministicIssues(sections));
    if units != [] {
      var entries := input.oracles.grounding(round, units).entries;
      GroundingIssuesAre(input, units, entries);
      forall x | x in GroundingIssues(input, units, entries) ensures IsGroundingIssue(input, r, x) {
        var u :| u in units && x in UnitIssues(input, u, entries);
        IsolatedGap(input, u, entries, x);
      }
    }
  }

  lemma {:induction false} RecordGrounding(input: Input, round: nat, sections: seq<DraftSection>)
    requires AuditDocument(input, round, sections).Done?
    ensures HearsGrounding(input, AuditedRound(round, sections, AuditDocument(input, round, sections).value))
  {
    hide AuditQuality, UnitIssues, FactualUnits, Vouches, ReportsUnit, Rejects, IsIncompleteGrounding;
    var r := AuditedRound(round, sections, AuditDocument(input, round, sections).value);
    var units := FactualUnits(input.rules, sections);
    if units != [] {
      var entries := input.oracles.grounding(round, units).entries;
      var grounding := GroundingIssues(input, units, entries);
      GroundingIssuesAre(input, units, entries);
      forall u | u in units && !Vouches(input, entries, u.id)
        ensures exists x :: x in grounding && ReportsUnit(u, Rejects(entries, u.id), x) && (IsIncompleteGrounding(x) <==> !Rejects(entries, u.id))
      {
        UnitIssuesReport(input, u, entries);
        var x := UnitIssues(input, u, entries)[0];
        assert x in UnitIssues(input, u, entries);
        IsolatedGap(input, u, entries, x);
      }
      forall x | x in grounding && IsIncompleteGrounding(x)
        ensures exists u :: u in units && !Vouches(input, entries, u.id) && !Rejects(entries, u.id)
      {
        var u :| u in units && x in UnitIssues(input, u, entries);
        IsolatedGap(input, u, entries, x);
      }
      assert r.audit.groundingComplete <==> forall x :: x in grounding ==> !IsIncompleteGrounding(x);
    } else {
      NoWordingIsComplete();
    }
  }

  lemma {:induction false} NoWordingIsComplete()
    ensures !IsIncompleteGrounding(NO_WORDING)
  {
  }

  lemma {:induction false} RecordRound(input: Input, round: nat, sections: seq<DraftSection>)
    requires SectionKeys(sections) == TemplateKeys(input.template) && AuditDocument(input, round, sections).Done?
    ensures IsRecorded(input, AuditedRound(round, sections, AuditDocument(input, round, sections).value))
  {
    hide HearsQuality, HearsGrounding, AuditDocument, SectionKeys, TemplateKeys;
    RecordQuality(input, round, sections);
    RecordGrounding(input, round, sections);
  }

  /** The history so far, while only repair rounds have happened. */
  ghost predicate IsRepairHistory(input: Input, history: seq<AuditedRound>, round: nat) {
    && |history| == round + 1
    && round <= 2
    && IsHistory(input, history)
    && Last(history).round == round
    && (forall k :: 0 <= k < |history| ==> history[k].round == k)
    && IsSettled(input, Last(history).sections)
  }

  lemma {:induction false} LongerIsHistory(input: Input, history: seq<AuditedRound>, next: AuditedRound)
    requires IsHistory(input, history) && |history| <= 3
    requires forall k :: 0 <= k < |history| ==> history[k].round == k
    requires IsRecorded(input, next) && (next.round == |history| || next.round == 3)
    requires IsLinked(input, Last(history), next)
    ensures IsHistory(input, history + [next])
  {
    hide IsRecorded, IsLinked;
    var recorded := (r: AuditedRound) => IsRecorded(input, r);
    var linked := (before: AuditedRound, after: AuditedRound) => IsLinked(input, before, after);
    var longer := history + [next];
    AllWithOneMore(recorded, history, next);
    PairsWithOneMore(linked, history, next);
    assert forall k :: 0 <= k < |longer| ==> recorded(longer[k]) ==> IsRecorded(input, longer[k]);
    assert forall k :: 0 < k < |longer| ==> linked(longer[k - 1], longer[k]) ==> IsLinked(input, longer[k - 1], longer[k]);
    assert forall k :: 0 <= k < |history| ==> longer[k] == history[k];
  }

  lemma {:induction false} ExtendHistory(input: Input, history: seq<AuditedRound>, round: nat, next: AuditedRound)
    requires IsRepairHistory(input, history, round) && round < 2
    requires next.round == round + 1 && IsRecorded(input, next) && IsSettled(input, next.sections)
    requires IsLinked(input, Last(history), next)
    ensures IsRepairHistory(input, history + [next], round + 1)
  {
    LongerIsHistory(input, history, next);
  }

  lemma {:induction false} AllWithOneMore<T>(p: T -> bool, xs: seq<T>, x: T)
    requires (forall k :: 0 <= k < |xs| ==> p(xs[k])) && p(x)
    ensures forall k :: 0 <= k < |xs + [x]| ==> p((xs + [x])[k])
  {
  }

  lemma {:induction false} PairsWithOneMore<T>(p: (T, T) -> bool, xs: seq<T>, x: T)
    requires xs != [] && (forall k :: 0 < k < |xs| ==> p(xs[k - 1], xs[k])) && p(xs[|xs| - 1], x)
    ensures forall k :: 0 < k < |xs + [x]| ==> p((xs + [x])[k - 1], (xs + [x])[k])
  {
  }

  lemma {:induction false} RepairsAreSafe(input: Input, history: seq<AuditedRound>, round: nat)
    requires DistinctKeys(input.template) && IsRepairHistory(input, history, round)
    requires Repairs(input, history, round).Done?
    ensures exists n :: round <= n <= 2 && IsRepairHistory(input, Repairs(input, history, round).value, n)
    decreases 2 - round
  {
    hide RepairRound, AuditDocument, NeedsChanges;
    var last := Last(history);
    if round < 2 && NeedsChanges(last.audit) {
      var draft := RepairRound(input, last.sections, last.audit, round).value;
      RepairKeepsUnaffected(input, last.sections, last.audit, round);
      RecordRound(input, round + 1, draft);
      var next := AuditedRound(round + 1, draft, AuditDocument(input, round + 1, draft).value);
      assert RepairsOnlyAffected(input, last, next);
      ExtendHistory(input, history, round, next);
      RepairsAreSafe(input, history + [next], round + 1);
    } else {
      assert IsRepairHistory(input, Repairs(input, history, round).value, round);
    }
  }

  lemma {:induction false} FirstRoundIsSafe(input: Input)
    requires FirstRound(input).Done?
    ensures IsRepairHistory(input, [FirstRound(input).value], 0)
  {
    var written := WriteSections(input, input.template, [], Draft, []).value;
    var draft := EnsureNoBlanks(input, input.template, written).value;
    EnsuredIsSettled(input, written);
    RecordRound(input, 0, draft);
    FirstHistory(input, AuditedRound(0, draft, AuditDocument(input, 0, draft).value));
  }

  lemma {:induction false} FirstHistory(input: Input, first: AuditedRound)
    requires first.round == 0 && IsRecorded(input, first) && IsSettled(input, first.sections)
    ensures IsRepairHistory(input, [first], 0)
  {
    assert [first][0] == first;
  }

  /** The sections are what the gate passed on from the last audit, up to fallbacks. */
  predicate IsPassedOn(input: Input, last: AuditedRound, sections: seq<DraftSection>) {
    var passed := ApplyAudit(input, last.sections, last.audit);
    && passed.Done?
    && SectionKeys(sections) == TemplateKeys(input.template)
    && |passed.value| == |sections|
    && forall i :: 0 <= i < |sections| ==> sections[i] == passed.value[i] || IsFallback(input, sections[i])
  }

  lemma {:induction false} SafeFrom(input: Input, history: seq<AuditedRound>, sections: seq<DraftSection>)
    requires IsHistory(input, history) && IsPassedOn(input, Last(history), sections)
    ensures IsSafeRun(input, Run(sections, history))
  {
    var last := Last(history);
    var passed := ApplyAudit(input, last.sections, last.audit).value;
    GateAt(input, last);
    GateIsSafe(input, last);
    KeysAt(sections, input.template);
    KeysAt(passed, input.template);
    forall x | x in last.audit.issues && IsDocumentFault(input, x) ensures IsIsolated(input, last.sections, sections, x) {
      assert IsIsolated(input, last.sections, passed, x);
    }
  }

  lemma {:induction false} CleanedHistory(input: Input, history: seq<AuditedRound>, round: nat, final: AuditedRound)
    requires IsRepairHistory(input, history, round) && IsRecorded(input, final) && final.round == 3
    ensures IsHistory(input, history + [final]) && Last(history + [final]) == final
  {
    LongerIsHistory(input, history, final);
  }

  /** The guarded draft is the gated one, up to fallbacks. */
  lemma {:induction false} GuardKeepsGated(input: Input, gated: seq<DraftSection>)
    requires DistinctKeys(input.template) && SectionKeys(gated) == TemplateKeys(input.template)
    requires EnsureNoBlanks(input, input.template, gated).Done?
    ensures var guarded := EnsureNoBlanks(input, input.template, gated).value;
            && SectionKeys(guarded) == TemplateKeys(input.template)
            && |guarded| == |gated|
            && forall i :: 0 <= i < |gated| ==> guarded[i] == gated[i] || IsFallback(input, guarded[i])
  {
    var guarded := EnsureNoBlanks(input, input.template, gated).value;
    EnsuredKeys(input, gated);
    KeysAt(gated, input.template);
    KeysAt(guarded, input.template);
    forall i | 0 <= i < |gated| ensures guarded[i] == gated[i] || IsFallback(input, guarded[i]) {
      EnsuredAt(input, gated, i);
    }
  }

  lemma {:induction false} FinishIsSafe(input: Input, history: seq<AuditedRound>, round: nat)
    requires DistinctKeys(input.template) && IsRepairHistory(input, history, round)
    requires Finish(input, history).Done?
    ensures IsSafeRun(input, Finish(input, history).value)
  {
    var last := Last(history);
    var gated := ApplyAudit(input, last.sections, last.audit).value;
    var guarded := EnsureNoBlanks(input, input.template, gated).value;
    GateIsSafe(input, last);
    GuardKeepsGated(input, gated);
    assert Finish(input, history) == CleanUp(input, history, guarded);
    CleanUpIsSafe(input, history, round, guarded);
  }

  lemma {:induction false} CleanUpIsSafe(input: Input, history: seq<AuditedRound>, round: nat, guarded: seq<DraftSection>)
    requires IsRepairHistory(input, history, round) && CleanUp(input, history, guarded).Done?
    requires IsPassedOn(input, Last(history), guarded)
    ensures IsSafeRun(input, CleanUp(input, history, guarded).value)
  {
    hide IsSafeRun, IsHistory, IsSettled, IsFallback, EnforceSections, AuditDocument, ApplyAudit, SectionKeys,
         TemplateKeys;
    var sections := EnforceSections(input, guarded).value;
    EnforcedKeys(input, guarded);
    if sections == guarded {
      assert CleanUp(input, history, guarded).value == Run(sections, history);
      SafeFrom(input, history, sections);
    } else {
      CleanedIsSafe(input, history, round, sections);
    }
  }

  lemma {:induction false} CleanedIsSafe(input: Input, history: seq<AuditedRound>, round: nat, sections: seq<DraftSection>)
    requires IsRepairHistory(input, history, round) && SectionKeys(sections) == TemplateKeys(input.template)
    requires AuditDocument(input, 3, sections).Done?
    requires ApplyAudit(input, sections, AuditDocument(input, 3, sections).value).Done?
    ensures var audit := AuditDocument(input, 3, sections).value;
            IsSafeRun(input, Run(ApplyAudit(input, sections, audit).value, history + [AuditedRound(3, sections, audit)]))
  {
    RecordRound(input, 3, sections);
    var final := AuditedRound(3, sections, AuditDocument(input, 3, sections).value);
    CleanedHistory(input, history, round, final);
    GateIsSafe(input, final);
    SafeFrom(input, history + [final], ApplyAudit(input, sections, final.audit).value);
  }

  /** Main result: whatever the writer and the auditors answer, a run that returns is safe. */
  lemma {:induction false} PipelineIsSafe(input: Input)
    requires DistinctKeys(input.template)
    ensures Pipeline(input).Done? ==> IsSafeRun(input, Pipeline(input).value)
  {
    if Pipeline(input).Done? {
      FirstRoundIsSafe(input);
      var first := [FirstRound(input).value];
      RepairsAreSafe(input, first, 0);
      var history := Repairs(input, first, 0).value;
      var n :| 0 <= n <= 2 && IsRepairHistory(input, history, n);
      FinishIsSafe(input, history, n);
    }
  }

  // ----- the pipeline does not refuse or rewrite without cause -----

  predicate FallbacksPrint(input: Input) {
    forall i :: 0 <= i < |input.template| ==> input.rules.fallbackContent(input.template[i]).Done?
  }

  lemma {:induction false} FallbacksExist(rules: Heuristics, template: seq<TemplateSection>)
    ensures Fallbacks(rules, template).Done? <==> forall i :: 0 <= i < |template| ==> rules.fallbackContent(template[i]).Done?
  {
    if template != [] {
      FallbacksExist(rules, template[1..]);
      assert forall i :: 1 <= i < |template| ==> template[i] == template[1..][i - 1];
      assert forall i :: 0 <= i < |template[1..]| ==> template[1..][i] == template[i + 1];
    }
  }

  lemma {:induction false} IsolateSucceeds(rules: Heuristics, template: seq<TemplateSection>, section: DraftSection)
    requires forall i :: 0 <= i < |template| ==> rules.fallbackContent(template[i]).Done?
    ensures Isolate(rules, template, section).Done?
  {
    if template != [] && template[0].key != section.key {
      IsolateSucceeds(rules, template[1..], section);
    }
  }

  lemma {:induction false} IsolateSectionsSucceeds(
    input: Input, whole: seq<DraftSection>, blocking: seq<Issue>, level: seq<Issue>, draft: seq<DraftSection>)
    requires FallbacksPrint(input)
    ensures IsolateSections(input, whole, blocking, level, draft).Done?
  {
    if draft != [] {
      IsolateSucceeds(input.rules, input.template, draft[0]);
      IsolateSectionsSucceeds(input, whole, blocking, level, draft[1..]);
    }
  }

  lemma {:induction false} GateStopsExactly(input: Input, draft: seq<DraftSection>, audit: Audit)
    requires audit.groundingComplete && Fallbacks(input.rules, input.template).Done?
    requires IsolateSections(input, draft, BlockingIssues(audit.issues), GateLevel(input, AuditedRound(0, draft, audit)), draft).Done?
    ensures ApplyAudit(input, draft, audit).Done? <==> UnrecoverableIssues(GateLevel(input, AuditedRound(0, draft, audit))) == []
  {
    hide IsolateSections, UnrecoverableIssues;
  }

  /** One failed audit gate is the only way a finding can stop a run, and it fails for three reasons only. */
  lemma {:induction false} GateFailsExactly(input: Input, draft: seq<DraftSection>, audit: Audit)
    ensures ApplyAudit(input, draft, audit).Done?
       <==> && audit.groundingComplete
            && FallbacksPrint(input)
            && forall x :: x in audit.issues && IsDocumentFault(input, x) ==>
                 x.category == BlankOutput || x.category == InstructionLeakage || x.category == Fact
  {
    hide IsolateSections, MustIsolate, GateLevel, IsRecovered, IsDocumentFault, Fallbacks;
    FallbacksExist(input.rules, input.template);
    if audit.groundingComplete && FallbacksPrint(input) {
      var r := AuditedRound(0, draft, audit);
      var level := GateLevel(input, r);
      IsolateSectionsSucceeds(input, draft, BlockingIssues(audit.issues), level, draft);
      GateStopsExactly(input, draft, audit);
      forall x ensures x in level <==> x in audit.issues && IsDocumentFault(input, x) && !(x.category == BlankOutput && IsRecovered(input, draft)) {
        LevelMember(input, r, x);
      }
      NoMembers(UnrecoverableIssues(level));
    }
  }

  lemma {:induction false} NoMembers(issues: seq<Issue>)
    ensures issues == [] <==> forall x :: x !in issues
  {
    if issues != [] {
      assert issues[0] in issues;
    }
  }

  lemma {:induction false} NoBlockingConcern(audit: Audit, key: Text)
    requires !HasBlockingIssue(audit, key)
    ensures forall x :: x in BlockingIssues(audit.issues) ==> !ConcernsSection(x, key)
  {
    forall x | x in BlockingIssues(audit.issues) ensures !ConcernsSection(x, key) {
      var n :| 0 <= n < |audit.issues| && audit.issues[n] == x;
      assert audit.issues[n].severity != Low;
    }
  }

  lemma {:induction false} LevelMember(input: Input, r: AuditedRound, x: Issue)
    requires Fallbacks(input.rules, input.template).Done?
    ensures x in GateLevel(input, r) <==>
      x in r.audit.issues && IsDocumentFault(input, x) && !(x.category == BlankOutput && IsRecovered(input, r.sections))
    ensures IsDocumentFault(input, x) ==> InferKeys(input, x, r.sections) == input.rules.infer(x, r.sections)
  {
    hide GateLevel, IsRecovered, Fallbacks;
    RecoveredIsExact(input, r);
  }

  lemma {:induction false} PassingIsKept(input: Input, r: AuditedRound, key: Text)
    requires Fallbacks(input.rules, input.template).Done? && !HasBlockingIssue(r.audit, key)
    requires forall x :: x in r.audit.issues && IsDocumentFault(input, x) ==>
               || (x.category == BlankOutput && IsRecovered(input, r.sections))
               || (input.rules.infer(x, r.sections) != [] && key !in input.rules.infer(x, r.sections))
    ensures !GateIsolates(input, r, key)
  {
    hide GateLevel, BlockingIssues, IsRecovered, Fallbacks, HasBlockingIssue, InferKeys, IsDocumentFault, IsRecoverable;
    NoBlockingConcern(r.audit, key);
    var blocking, level := BlockingIssues(r.audit.issues), GateLevel(input, r);
    forall k | 0 <= k < |level| ensures InferKeys(input, level[k], r.sections) != [] && key !in InferKeys(input, level[k], r.sections) {
      assert level[k] in level;
      LevelMember(input, r, level[k]);
    }
    assert forall k :: 0 <= k < |blocking| ==> blocking[k] in blocking;
  }

  /** A section that no blocking finding is about passes the gate unchanged, whatever its siblings did. */
  lemma {:induction false} GateKeepsPassingSections(input: Input, draft: seq<DraftSection>, audit: Audit, i: nat)
    requires ApplyAudit(input, draft, audit).Done? && i < |draft|
    requires !HasBlockingIssue(audit, draft[i].key)
    requires forall x :: x in audit.issues && IsDocumentFault(input, x) ==>
               || (x.category == BlankOutput && IsRecovered(input, draft))
               || (input.rules.infer(x, draft) != [] && draft[i].key !in input.rules.infer(x, draft))
    ensures i < |ApplyAudit(input, draft, audit).value| && ApplyAudit(input, draft, audit).value[i] == draft[i]
  {
    hide ApplyAudit, GateLevel, GateIsolates, Isolate, IsRecovered, HasBlockingIssue, IsDocumentFault, Fallbacks;
    var r := AuditedRound(0, draft, audit);
    GateAt(input, r);
    PassingIsKept(input, r, draft[i].key);
  }

  /** The writer's first wording, clean and approved by both auditors. */
  predicate IsWrittenAndApproved(input: Input, draft: seq<DraftSection>) {
    && input.oracles.planned
    && |draft| == |input.template|
    && (forall i :: 0 <= i < |draft| ==> IsFirstWording(input, input.template[i], draft[i]))
    && ApprovesQuality(input, draft)
    && ApprovesGrounding(input, draft)
    && FallbacksPrint(input)
    && input.rules.integrity(draft)
  }

  predicate IsFirstWording(input: Input, t: TemplateSection, section: DraftSection) {
    && section.key == t.key
    && section.title == input.rules.displayLabel(t)
    && input.oracles.write(t, Draft, [], NoPrevious) == Written(section.content)
    && !input.rules.blank(section.content)
    && IsClean(input.rules, section, FoundTemplate(t))
  }

  predicate ApprovesQuality(input: Input, draft: seq<DraftSection>) {
    input.oracles.quality(0, draft) == Reviewed([]) && input.rules.deterministicIssues(draft) == []
  }

  predicate ApprovesGrounding(input: Input, draft: seq<DraftSection>) {
    var units := FactualUnits(input.rules, draft);
    var reply := input.oracles.grounding(0, units);
    && units != []
    && reply.Graded?
    && forall i :: 0 <= i < |units| ==> Vouches(input, reply.entries, units[i].id)
  }

  lemma {:induction false} FirstSectionIsWritten(input: Input, t: TemplateSection, section: DraftSection)
    requires IsFirstWording(input, t, section)
    ensures WriteSection(input, t, [], Draft, LastWithKey([], t.key)) == Done(section)
  {
    assert LastWithKey([], t.key) == NoPrevious;
  }

  lemma {:induction false} FirstWordingIsWritten(input: Input, template: seq<TemplateSection>, draft: seq<DraftSection>)
    requires |draft| == |template| && forall i :: 0 <= i < |draft| ==> IsFirstWording(input, template[i], draft[i])
    ensures WriteSections(input, template, [], Draft, []) == Done(draft)
  {
    hide IsFirstWording, WriteSection;
    if template != [] {
      FirstSectionIsWritten(input, template[0], draft[0]);
      assert forall i :: 0 <= i < |draft[1..]| ==> IsFirstWording(input, template[1..][i], draft[1..][i]);
      FirstWordingIsWritten(input, template[1..], draft[1..]);
      assert draft == [draft[0]] + draft[1..];
    }
  }

  lemma {:induction false} EnsureKeepsWording(input: Input, template: seq<TemplateSection>, draft: seq<DraftSection>, part: seq<DraftSection>)
    requires |part| == |template|
    requires forall i :: 0 <= i < |part| ==> EnsureNotBlank(input, template[i], draft) == Done(part[i])
    ensures EnsureNoBlanks(input, template, draft) == Done(part)
  {
    hide EnsureNotBlank;
    if template != [] {
      assert EnsureNotBlank(input, template[0], draft) == Done(part[0]);
      EnsureKeepsWording(input, template[1..], draft, part[1..]);
      assert part == [part[0]] + part[1..];
    }
  }

  lemma {:induction false} EnsureKeepsDraft(input: Input, draft: seq<DraftSection>)
    requires DistinctKeys(input.template) && SectionKeys(draft) == TemplateKeys(input.template)
    requires forall i :: 0 <= i < |draft| ==> !input.rules.blank(draft[i].content)
    ensures EnsureNoBlanks(input, input.template, draft) == Done(draft)
  {
    KeysAt(draft, input.template);
    forall i | 0 <= i < |draft| ensures EnsureNotBlank(input, input.template[i], draft) == Done(draft[i]) {
      LastOfDistinct(draft, input.template, i);
    }
    EnsureKeepsWording(input, input.template, draft, draft);
  }

  lemma {:induction false} GroundedUnitsRaiseNothing(input: Input, units: seq<FactualUnit>, entries: seq<Entry>)
    requires forall i :: 0 <= i < |units| ==> Vouches(input, entries, units[i].id)
    ensures GroundingIssues(input, units, entries) == []
  {
    if units != [] {
      UnitIssuesReport(input, units[0], entries);
      assert UnitIssues(input, units[0], entries) == [];
      assert forall i :: 0 <= i < |units[1..]| ==> units[1..][i] == units[i + 1];
      GroundedUnitsRaiseNothing(input, units[1..], entries);
    }
  }

  lemma {:induction false} CleanDraftIsKept(input: Input, draft: seq<DraftSection>)
    requires forall i :: 0 <= i < |draft| ==> IsClean(input.rules, draft[i], FindTemplate(input.template, draft[i].key))
    ensures EnforceSections(input, draft) == Done(draft)
  {
    if draft != [] {
      CleanDraftIsKept(input, draft[..|draft| - 1]);
      assert draft == draft[..|draft| - 1] + [draft[|draft| - 1]];
    }
  }

  lemma {:induction false} ApprovedAudit(input: Input, draft: seq<DraftSection>)
    requires ApprovesQuality(input, draft) && ApprovesGrounding(input, draft)
    ensures AuditDocument(input, 0, draft) == Done(Audit([], true))
  {
    var units := FactualUnits(input.rules, draft);
    GroundedUnitsRaiseNothing(input, units, input.oracles.grounding(0, units).entries);
    assert [] + NewIssues(input.rules, [], []) == [];
  }

  lemma {:induction false} NothingToGate(input: Input, draft: seq<DraftSection>)
    requires FallbacksPrint(input)
    ensures ApplyAudit(input, draft, Audit([], true)) == Done(draft)
  {
    var audit := Audit([], true);
    GateFailsExactly(input, draft, audit);
    var passed := ApplyAudit(input, draft, audit).value;
    GateAt(input, AuditedRound(0, draft, audit));
    forall i | 0 <= i < |draft| ensures passed[i] == draft[i] {
      GateKeepsPassingSections(input, draft, audit, i);
    }
    assert passed == draft;
  }

  lemma {:induction false} FindsTemplateAt(template: seq<TemplateSection>, i: nat)
    requires DistinctKeys(template) && i < |template|
    ensures FindTemplate(template, template[i].key) == FoundTemplate(template[i])
  {
    if i > 0 {
      FindsTemplateAt(template[1..], i - 1);
    }
  }

  /** Clean wording that both auditors approve is returned exactly as written, after one audit. */
  lemma {:induction false} ApprovedDraftIsReturned(input: Input, draft: seq<DraftSection>)
    requires DistinctKeys(input.template) && IsWrittenAndApproved(input, draft)
    ensures Pipeline(input) == Done(Run(draft, [AuditedRound(0, draft, Audit([], true))]))
  {
    FirstWordingIsWritten(input, input.template, draft);
    forall i | 0 <= i < |draft|
      ensures draft[i].key == input.template[i].key && !input.rules.blank(draft[i].content)
      ensures IsClean(input.rules, draft[i], FindTemplate(input.template, draft[i].key))
    {
      assert IsFirstWording(input, input.template[i], draft[i]);
      FindsTemplateAt(input.template, i);
    }
    SameKeys(draft, input.template);
    EnsureKeepsDraft(input, draft);
    ApprovedAudit(input, draft);
    NothingToGate(input, draft);
    CleanDraftIsKept(input, draft);
    var history := [AuditedRound(0, draft, Audit([], true))];
    assert Repairs(input, history, 0) == Done(history);
    assert CleanUp(input, history, draft) == Done(Run(draft, history));
  }
}
