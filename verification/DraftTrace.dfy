/**
 document-pipeline.ts, lines 1020-1222 and 1631-1838: where the wording of a run comes from.

 `PipelineIsTraced` follows every section of every audited draft back to the answers
 of the writer: the first draft to the first call and its one retry, a repaired section
 to a call that was given the findings about it, the cleaned wording to the cleanup
 call or to what is left when instructions are stripped. It also says when the repairs
 end. `DocumentPipeline.PipelineIsSafe` says what is true of the wording that is
 returned; here it is said how it came about.
 */
module DraftTrace {
  import opened Texts
  import opened DocumentPipeline

  // ----- one section -----

  /** The deterministic needs-input slot of a template section. */
  predicate IsSlot(rules: Heuristics, t: TemplateSection, w: DraftSection) {
    w.key == t.key && w.title == t.title && rules.fallbackContent(t) == Done(w.content)
  }

  /** A finding about this section, or about no section in particular. */
  predicate IsFor(t: TemplateSection, issue: Issue) {
    issue.scope == Unscoped || issue.scope == Scoped([]) || issue.scope == Scoped(t.key)
  }

  /** The findings the writer is given: those for this section, in their order. */
  function FindingsFor(t: TemplateSection, issues: seq<Issue>): seq<Issue> {
    if issues == [] then []
    else (if IsFor(t, issues[0]) then [issues[0]] else []) + FindingsFor(t, issues[1..])
  }

  /** The previous title stays, unless a finding mentions it and the template has another one. */
  predicate IsTitle(rules: Heuristics, t: TemplateSection, previous: Previous, findings: seq<Issue>, title: Text) {
    match previous
    case NoPrevious => title == rules.displayLabel(t)
    case Previous(p) =>
      if p.title != t.title && exists x :: x in findings && rules.mentions(x, p.title) then title == t.title else title == p.title
  }

  /** A finding of weak wording, so that one more retry would ask for nothing new. */
  predicate AsksForMore(rules: Heuristics, issue: Issue) {
    issue.category == Completeness && (issue.finding == PurposeOnlyOutput || rules.purposeOnly(issue.finding))
  }

  /** What is left of weak wording without its instructions, or the slot when nothing is left. */
  predicate IsSalvaged(rules: Heuristics, t: TemplateSection, previous: Previous, findings: seq<Issue>, text: Text, w: DraftSection) {
    if rules.strip(text) == [] then IsSlot(rules, t, w)
    else w.content == rules.strip(text) && IsTitle(rules, t, previous, findings, w.title)
  }

  /** The one retry of weak wording: the findings and one more, with the weak wording as the previous one. */
  predicate IsRetried(input: Input, t: TemplateSection, issues: seq<Issue>, phase: Phase, weak: DraftSection, w: DraftSection) {
    var findings := FindingsFor(t, issues + [Issue(High, Completeness, Scoped(t.key), PurposeOnlyOutput)]);
    match input.oracles.write(t, WeakRepair(phase), findings, Previous(weak))
    case WriterFailed => false
    case RepairLimitReached => IsSlot(input.rules, t, w)
    case Written(text) =>
      if input.rules.weak(text, FoundTemplate(t)) then IsSalvaged(input.rules, t, Previous(weak), findings, text, w)
      else w.content == text && IsTitle(input.rules, t, Previous(weak), findings, w.title)
  }

  /** The section is what one call of the writer, and at most one retry, makes of a template section. */
  ghost predicate IsAnswer(input: Input, t: TemplateSection, issues: seq<Issue>, phase: Phase, previous: Previous, w: DraftSection) {
    var findings := FindingsFor(t, issues);
    && (phase == Draft || (previous.Previous? && previous.section.key == t.key))
    && w.key == t.key
    && match input.oracles.write(t, phase, findings, previous)
       case WriterFailed => false
       case RepairLimitReached => phase != Draft && IsSlot(input.rules, t, w)
       case Written(text) =>
         if !input.rules.weak(text, FoundTemplate(t)) then
           w.content == text && IsTitle(input.rules, t, previous, findings, w.title)
         else if exists x :: x in findings && AsksForMore(input.rules, x) then
           IsSalvaged(input.rules, t, previous, findings, text, w)
         else
           exists title :: IsTitle(input.rules, t, previous, findings, title)
                           && IsRetried(input, t, issues, phase, DraftSection(t.key, title, text), w)
  }

  /** Blank wording is replaced by the slot, any other one is kept. */
  predicate IsKeptOrSlot(rules: Heuristics, t: TemplateSection, w: DraftSection, s: DraftSection) {
    if rules.blank(w.content) then IsSlot(rules, t, s) else s == w
  }

  /** The section is what the writer makes of a template section, or the slot where that is blank. */
  ghost predicate ComesFrom(input: Input, t: TemplateSection, issues: seq<Issue>, phase: Phase, previous: Previous, s: DraftSection) {
    exists w :: IsAnswer(input, t, issues, phase, previous, w) && IsKeptOrSlot(input.rules, t, w, s)
  }

  /** Wording with neither instructions nor weaknesses stays; any other one is written once more, and then stripped. */
  ghost predicate IsCleaned(input: Input, t: TemplateSection, before: DraftSection, after: DraftSection) {
    if IsFine(input.rules, t, before) then after == before
    else exists retry ::
      && IsAnswer(input, t, [Issue(High, InstructionLeakage, Scoped(t.key), InstructionsInOutput)], FinalRepair, Previous(before), retry)
      && IsStripped(input.rules, t, before, retry, after)
  }

  predicate IsFine(rules: Heuristics, t: TemplateSection, s: DraftSection) {
    !rules.leaky(s) && !rules.weak(s.content, FoundTemplate(t))
  }

  /** A fine retry is taken; else what can be stripped from it, or from the wording before it, or the slot. */
  predicate IsStripped(rules: Heuristics, t: TemplateSection, before: DraftSection, retry: DraftSection, after: DraftSection) {
    if IsFine(rules, t, retry) then after == retry
    else if rules.strip(retry.content) != [] then after == DraftSection(t.key, retry.title, rules.strip(retry.content))
    else if rules.strip(before.content) != [] then after == DraftSection(t.key, retry.title, rules.strip(before.content))
    else IsSlot(rules, t, after)
  }

  // ----- a run -----

  ghost predicate IsFirstDraft(input: Input, sections: seq<DraftSection>) {
    && |sections| == |input.template|
    && forall i :: 0 <= i < |sections| ==> ComesFrom(input, input.template[i], [], Draft, NoPrevious, sections[i])
  }

  /** The audit has a finding about this section that is more than a warning about the audit itself. */
  predicate IsFaulted(rules: Heuristics, audit: Audit, key: Text) {
    key != [] && exists x :: x in audit.issues && x.scope == Scoped(key)
                             && !(x.severity == Low && x.category == Completeness && rules.auditWarning(x.finding))
  }

  /** The next draft: faulted sections are written again with the findings about them, all others stay. */
  ghost predicate IsRepairOf(input: Input, before: AuditedRound, after: AuditedRound) {
    && after.round == before.round + 1 && before.audit.issues != []
    && |before.sections| == |after.sections| == |input.template|
    && forall i :: 0 <= i < |after.sections| ==> IsRepairedAt(input, before, after, i)
  }

  ghost predicate IsRepairedAt(input: Input, before: AuditedRound, after: AuditedRound, i: nat)
    requires i < |before.sections| == |after.sections| == |input.template|
  {
    if IsFaulted(input.rules, before.audit, before.sections[i].key) then
      ComesFrom(input, input.template[i], before.audit.issues, Repair(after.round), Previous(before.sections[i]), after.sections[i])
    else after.sections[i] == before.sections[i]
  }

  /** The drafts of the repair loop: from the writer's first draft to one without findings, or to the third. */
  ghost predicate AreRepairs(input: Input, rounds: seq<AuditedRound>) {
    && rounds != []
    && rounds[0].round == 0 && IsFirstDraft(input, rounds[0].sections)
    && forall k :: 0 < k < |rounds| ==> IsRepairOf(input, rounds[k - 1], rounds[k])
  }

  predicate AreOver(last: AuditedRound) {
    last.audit.issues == [] || last.round == 2
  }

  ghost predicate ArePassedOn(input: Input, last: AuditedRound, sections: seq<DraftSection>) {
    && |sections| == |input.template|
    && forall i :: 0 <= i < |sections| ==>
         sections[i].key == input.template[i].key && (IsFallback(input, sections[i]) || IsApproved(input, last, sections[i], i))
  }

  ghost predicate AreCleaned(input: Input, before: seq<DraftSection>, after: seq<DraftSection>) {
    && |before| == |after| == |input.template|
    && forall i :: 0 <= i < |after| ==> IsCleaned(input, input.template[i], before[i], after[i])
  }

  /**
   The run from beginning to end: the repairs, what the gate passed on from the last one,
   and its cleaned wording, which is audited once more exactly when it is another one.
   */
  ghost predicate IsTraced(input: Input, run: Run, repairs: seq<AuditedRound>, passed: seq<DraftSection>) {
    && AreRepairs(input, repairs) && AreOver(Last(repairs))
    && ArePassedOn(input, Last(repairs), passed)
    && run.history != [] && repairs <= run.history
    && input.rules.integrity(run.sections)
    && if |run.history| == |repairs| then run.sections == passed && AreCleaned(input, passed, passed)
       else
         && |run.history| == |repairs| + 1 && Last(run.history).round == 3
         && Last(run.history).sections != passed && AreCleaned(input, passed, Last(run.history).sections)
         && ArePassedOn(input, Last(run.history), run.sections)
  }

  // ----- the writer -----

  lemma {:induction false} FindingsAreRelevant(t: TemplateSection, issues: seq<Issue>)
    ensures FindingsFor(t, issues) == RelevantCorrections(issues, t.key)
  {
    if issues != [] {
      FindingsAreRelevant(t, issues[1..]);
    }
  }

  lemma {:induction false} LabelIsTitle(rules: Heuristics, t: TemplateSection, previous: Previous, findings: seq<Issue>, title: Text)
    ensures IsTitle(rules, t, previous, findings, title) <==> title == SectionLabel(rules, t, previous, findings)
  {
    if previous.Previous? {
      var p := previous.section;
      if x :| x in findings && rules.mentions(x, p.title) {
        var i :| 0 <= i < |findings| && findings[i] == x;
        assert rules.mentions(findings[i], p.title);
      }
      if i :| 0 <= i < |findings| && rules.mentions(findings[i], p.title) {
        assert findings[i] in findings;
      }
    }
  }

  lemma {:induction false} MoreIsWeakCorrection(rules: Heuristics, findings: seq<Issue>)
    ensures (exists x :: x in findings && AsksForMore(rules, x)) <==> HasWeakOutputCorrection(rules, findings)
  {
    if x :| x in findings && AsksForMore(rules, x) {
      var i :| 0 <= i < |findings| && findings[i] == x;
      assert IsWeakCorrection(rules, findings[i]);
    }
    if i :| 0 <= i < |findings| && IsWeakCorrection(rules, findings[i]) {
      assert findings[i] in findings && AsksForMore(rules, findings[i]);
    }
  }

  lemma {:induction false} SlotIsFallback(rules: Heuristics, t: TemplateSection, w: DraftSection)
    ensures IsSlot(rules, t, w) <==> FallbackSection(rules, t) == Done(w)
  {
  }

  /** The call that ends the writing of a section: there is no other retry. */
  lemma {:induction false} RetryExactly(input: Input, t: TemplateSection, issues: seq<Issue>, phase: Phase, weak: DraftSection, w: DraftSection)
    requires weak.key == t.key
    ensures WriteSection(input, t, issues + [WeakOutputCorrection(t)], WeakRepair(phase), Previous(weak)) == Done(w)
       <==> w.key == t.key && IsRetried(input, t, issues, phase, weak, w)
  {
    hide SectionLabel, IsTitle, RelevantCorrections, HasWeakOutputCorrection, IsSlot, FallbackSection, FindingsFor;
    var more := issues + [WeakOutputCorrection(t)];
    var findings := RelevantCorrections(more, t.key);
    FindingsAreRelevant(t, more);
    WeakCorrectionIsRelevant(input.rules, issues, t);
    LabelIsTitle(input.rules, t, Previous(weak), findings, w.title);
    SlotIsFallback(input.rules, t, w);
    SlotHasKey(input.rules, t, w);
  }

  lemma {:induction false} SlotHasKey(rules: Heuristics, t: TemplateSection, w: DraftSection)
    ensures IsSlot(rules, t, w) ==> w.key == t.key
  {
  }

  /** One section is written by one call and at most one retry. */
  lemma {:induction false} WriteSectionExactly(input: Input, t: TemplateSection, issues: seq<Issue>, phase: Phase, previous: Previous, w: DraftSection)
    ensures WriteSection(input, t, issues, phase, previous) == Done(w) <==> IsAnswer(input, t, issues, phase, previous, w)
  {
    hide SectionLabel, IsTitle, RelevantCorrections, HasWeakOutputCorrection, IsSlot, FallbackSection, FindingsFor, IsRetried;
    var findings := RelevantCorrections(issues, t.key);
    var title := SectionLabel(input.rules, t, previous, findings);
    FindingsAreRelevant(t, issues);
    MoreIsWeakCorrection(input.rules, findings);
    LabelIsTitle(input.rules, t, previous, findings, w.title);
    LabelIsTitle(input.rules, t, previous, findings, title);
    SlotIsFallback(input.rules, t, w);
    SlotHasKey(input.rules, t, w);
    match input.oracles.write(t, phase, findings, previous)
    case WriterFailed =>
    case RepairLimitReached =>
    case Written(text) =>
      RetryExactly(input, t, issues, phase, DraftSection(t.key, title, text), w);
      forall other | IsTitle(input.rules, t, previous, findings, other) ensures other == title {
        LabelIsTitle(input.rules, t, previous, findings, other);
      }
  }

  lemma {:induction false} WrittenAt(input: Input, selected: seq<TemplateSection>, issues: seq<Issue>, phase: Phase, previous: seq<DraftSection>, i: nat)
    requires WriteSections(input, selected, issues, phase, previous).Done? && i < |selected|
    ensures var r := WriteSections(input, selected, issues, phase, previous).value;
      |r| == |selected| && WriteSection(input, selected[i], issues, phase, LastWithKey(previous, selected[i].key)) == Done(r[i])
  {
    hide WriteSection, LastWithKey;
    assert |SectionKeys(WriteSections(input, selected, issues, phase, previous).value)| == |TemplateKeys(selected)|;
    if i > 0 {
      WrittenAt(input, selected[1..], issues, phase, previous, i - 1);
    }
  }

  lemma {:induction false} EnsuredIsKept(input: Input, draft: seq<DraftSection>, i: nat)
    requires DistinctKeys(input.template) && SectionKeys(draft) == TemplateKeys(input.template)
    requires EnsureNoBlanks(input, input.template, draft).Done? && i < |draft|
    ensures |EnsureNoBlanks(input, input.template, draft).value| == |draft| == |input.template|
    ensures IsKeptOrSlot(input.rules, input.template[i], draft[i], EnsureNoBlanks(input, input.template, draft).value[i])
  {
    hide EnsureNoBlanks, SectionKeys, TemplateKeys, DistinctKeys, FallbackSection, IsSlot;
    KeysAt(draft, input.template);
    EnsuredAt(input, draft, i);
    SlotIsFallback(input.rules, input.template[i], EnsureNoBlanks(input, input.template, draft).value[i]);
  }

  lemma {:induction false} FirstDraftIsTraced(input: Input)
    requires DistinctKeys(input.template) && FirstRound(input).Done?
    ensures FirstRound(input).value.round == 0 && IsFirstDraft(input, FirstRound(input).value.sections)
  {
    hide WriteSections, EnsureNoBlanks, WriteSection, IsAnswer, IsKeptOrSlot, SectionKeys, TemplateKeys, DistinctKeys, AuditDocument, LastWithKey;
    var written := WriteSections(input, input.template, [], Draft, []).value;
    var draft := EnsureNoBlanks(input, input.template, written).value;
    KeysAt(written, input.template);
    forall i | 0 <= i < |input.template| ensures |draft| == |input.template| && ComesFrom(input, input.template[i], [], Draft, NoPrevious, draft[i]) {
      WrittenAt(input, input.template, [], Draft, [], i);
      NoneBefore(input.template[i].key);
      WriteSectionExactly(input, input.template[i], [], Draft, NoPrevious, written[i]);
      EnsuredIsKept(input, written, i);
    }
    EnsuredKeys(input, written);
    KeysAt(draft, input.template);
  }

  lemma {:induction false} NoneBefore(key: Text)
    ensures LastWithKey([], key) == NoPrevious
  {
  }

  // ----- repairs -----

  lemma {:induction false} FaultedIsRewritten(rules: Heuristics, audit: Audit, key: Text)
    ensures IsFaulted(rules, audit, key) <==> RequestsRewrite(rules, audit.issues, key)
  {
    if key != [] && exists x :: x in audit.issues && x.scope == Scoped(key) && !IsInfrastructureIssue(rules, x) {
      var x :| x in audit.issues && x.scope == Scoped(key) && !IsInfrastructureIssue(rules, x);
      var i :| 0 <= i < |audit.issues| && audit.issues[i] == x;
      assert ConcernsSection(audit.issues[i], key);
    }
    if RequestsRewrite(rules, audit.issues, key) {
      var i :| 0 <= i < |audit.issues| && ConcernsSection(audit.issues[i], key) && !IsInfrastructureIssue(rules, audit.issues[i]);
      assert audit.issues[i] in audit.issues;
    }
  }

  lemma {:induction false} SelectedIsIn(template: seq<TemplateSection>, keys: seq<Text>, i: nat)
    requires i < |template| && template[i].key in keys
    ensures template[i] in SelectSections(template, keys)
  {
    if i > 0 {
      SelectedIsIn(template[1..], keys, i - 1);
    }
  }

  lemma {:induction false} SelectedAreDistinct(template: seq<TemplateSection>, keys: seq<Text>)
    requires DistinctKeys(template)
    ensures DistinctKeys(SelectSections(template, keys))
  {
    if template != [] {
      var rest := SelectSections(template[1..], keys);
      SelectedAreDistinct(template[1..], keys);
      forall k | 0 <= k < |rest| ensures rest[k].key != template[0].key {
        assert rest[k] in rest;
        var j :| 0 <= j < |template[1..]| && template[1..][j] == rest[k];
        assert template[j + 1] == rest[k];
      }
    }
  }

  /** A section that was written again takes its place in the draft. */
  lemma {:induction false} MergedIsWritten(draft: seq<DraftSection>, selected: seq<TemplateSection>, written: seq<DraftSection>, i: nat, n: nat)
    requires DistinctKeys(selected) && SectionKeys(written) == TemplateKeys(selected)
    requires i < |draft| && n < |selected| && selected[n].key == draft[i].key
    ensures |written| == |selected| && MergeByKey(draft, written)[i] == written[n]
  {
    hide SectionKeys, TemplateKeys, DistinctKeys, MergeByKey, LastWithKey;
    KeysAt(written, selected);
    LastOfDistinct(written, selected, n);
    assert MergeByKey(draft, written)[i] == Replaced(draft[i], written);
  }

  lemma {:induction false} RewrittenAt(input: Input, draft: seq<DraftSection>, audit: Audit, round: nat, i: nat)
    requires DistinctKeys(input.template) && SectionKeys(draft) == TemplateKeys(input.template)
    requires RepairRound(input, draft, audit, round).Done? && i < |draft| == |input.template|
    requires RequestsRewrite(input.rules, audit.issues, draft[i].key)
    ensures |RepairRound(input, draft, audit, round).value| == |draft|
    ensures ComesFrom(input, input.template[i], audit.issues, Repair(round + 1), Previous(draft[i]), RepairRound(input, draft, audit, round).value[i])
  {
    hide AffectedKeys, SelectSections, WriteSections, WriteSection, MergeByKey, EnsureNoBlanks, SectionKeys, TemplateKeys, DistinctKeys,
         RequestsRewrite, IsTemplateKey, LastWithKey, IsAnswer, IsKeptOrSlot;
    KeysAt(draft, input.template);
    var t, keys := input.template[i], AffectedKeys(input.rules, audit.issues, TemplateKeys(input.template));
    var selected := SelectSections(input.template, keys);
    var written := WriteSections(input, selected, audit.issues, Repair(round + 1), draft).value;
    assert TemplateKeys(input.template)[i] == t.key && t.key in keys;
    SelectedIsIn(input.template, keys, i);
    SelectedAreDistinct(input.template, keys);
    var n :| 0 <= n < |selected| && selected[n] == t;
    WrittenAt(input, selected, audit.issues, Repair(round + 1), draft, n);
    LastOfDistinct(draft, input.template, i);
    WriteSectionExactly(input, t, audit.issues, Repair(round + 1), Previous(draft[i]), written[n]);
    MergedIsWritten(draft, selected, written, i, n);
    MergedKeys(draft, written, input.template);
    EnsuredIsKept(input, MergeByKey(draft, written), i);
  }

  lemma {:induction false} RepairIsTraced(input: Input, before: AuditedRound, after: AuditedRound)
    requires DistinctKeys(input.template) && IsSettled(input, before.sections) && before.audit.issues != []
    requires RepairRound(input, before.sections, before.audit, before.round) == Done(after.sections) && after.round == before.round + 1
    ensures IsRepairOf(input, before, after)
  {
    hide RepairRound, RequestsRewrite, IsFaulted, ComesFrom, DistinctKeys, SectionKeys, TemplateKeys, FallbackSection;
    RepairKeepsUnaffected(input, before.sections, before.audit, before.round);
    KeysAt(before.sections, input.template);
    forall i | 0 <= i < |after.sections| ensures IsRepairedAt(input, before, after, i) {
      FaultedIsRewritten(input.rules, before.audit, before.sections[i].key);
      if RequestsRewrite(input.rules, before.audit.issues, before.sections[i].key) {
        RewrittenAt(input, before.sections, before.audit, before.round, i);
      }
    }
  }

  lemma {:induction false} RepairsAppend(input: Input, rounds: seq<AuditedRound>, next: AuditedRound)
    requires AreRepairs(input, rounds) && IsRepairOf(input, Last(rounds), next)
    ensures AreRepairs(input, rounds + [next])
  {
    hide IsRepairOf, IsFirstDraft;
    var longer := rounds + [next];
    forall k | 0 < k < |longer| ensures IsRepairOf(input, longer[k - 1], longer[k]) {
      if k < |rounds| {
        assert longer[k - 1] == rounds[k - 1] && longer[k] == rounds[k];
      }
    }
  }

  lemma {:induction false} RepairsAreTraced(input: Input, history: seq<AuditedRound>, round: nat)
    requires DistinctKeys(input.template) && IsRepairHistory(input, history, round) && AreRepairs(input, history)
    requires Repairs(input, history, round).Done?
    ensures AreRepairs(input, Repairs(input, history, round).value) && AreOver(Last(Repairs(input, history, round).value))
    ensures exists n :: 0 <= n <= 2 && IsRepairHistory(input, Repairs(input, history, round).value, n)
    decreases 2 - round
  {
    hide RepairRound, AuditDocument, AreRepairs, IsHistory, IsSettled, IsRecorded;
    var last := Last(history);
    if round < 2 && last.audit.issues != [] {
      var draft := RepairRound(input, last.sections, last.audit, round).value;
      var next := AuditedRound(round + 1, draft, AuditDocument(input, round + 1, draft).value);
      NextRound(input, history, round, next);
      RepairIsTraced(input, last, next);
      RepairsAppend(input, history, next);
      RepairsAreTraced(input, history + [next], round + 1);
    } else {
      assert IsRepairHistory(input, Repairs(input, history, round).value, round);
    }
  }

  lemma {:induction false} NextRound(input: Input, history: seq<AuditedRound>, round: nat, next: AuditedRound)
    requires DistinctKeys(input.template) && IsRepairHistory(input, history, round) && round < 2 && Last(history).audit.issues != []
    requires RepairRound(input, Last(history).sections, Last(history).audit, round) == Done(next.sections)
    requires next.round == round + 1 && AuditDocument(input, next.round, next.sections) == Done(next.audit)
    ensures IsRepairHistory(input, history + [next], round + 1)
  {
    hide RepairRound, AuditDocument, IsHistory, IsRecorded, SectionKeys, TemplateKeys, DistinctKeys, FallbackSection, RequestsRewrite;
    var last := Last(history);
    RepairKeepsUnaffected(input, last.sections, last.audit, round);
    RecordRound(input, next.round, next.sections);
    assert RepairsOnlyAffected(input, last, next);
    ExtendHistory(input, history, round, next);
  }

  // ----- the cleanup -----

  lemma {:induction false} EnforcedIsCleaned(input: Input, i: nat, before: DraftSection, after: DraftSection)
    requires DistinctKeys(input.template) && i < |input.template| && before.key == input.template[i].key
    requires EnforceSection(input, before) == Done(after)
    ensures IsCleaned(input, input.template[i], before, after)
  {
    hide WriteSection, IsAnswer, DistinctKeys, FindTemplate, FallbackSection, IsSlot;
    var t := input.template[i];
    FindsTemplateAt(input.template, i);
    if !IsFine(input.rules, t, before) {
      var findings := [Issue(High, InstructionLeakage, Scoped(t.key), InstructionsInOutput)];
      var retry := WriteSection(input, t, findings, FinalRepair, Previous(before)).value;
      WriteSectionExactly(input, t, findings, FinalRepair, Previous(before), retry);
      SlotIsFallback(input.rules, t, after);
      assert IsStripped(input.rules, t, before, retry, after);
    }
  }

  /** A section that no template section knows is never rewritten: fine as it is, or stripped, or the slot of its own title. */
  lemma {:induction false} UnknownIsStripped(input: Input, before: DraftSection)
    requires forall i :: 0 <= i < |input.template| ==> input.template[i].key != before.key
    ensures var rules, stripped := input.rules, input.rules.strip(before.content);
      EnforceSection(input, before) ==
        if !rules.leaky(before) && !rules.weak(before.content, NoTemplate) then Done(before)
        else if stripped != [] && !rules.weak(stripped, NoTemplate) then Done(DraftSection(before.key, before.title, stripped))
        else match rules.fallbackContent(TemplateSection(before.key, before.title))
             case Failed => Failed
             case Done(content) => Done(DraftSection(before.key, before.title, content))
  {
    hide WriteSection;
    NoTemplateFound(input.template, before.key);
  }

  lemma {:induction false} NoTemplateFound(template: seq<TemplateSection>, key: Text)
    requires forall i :: 0 <= i < |template| ==> template[i].key != key
    ensures FindTemplate(template, key) == NoTemplate
  {
    if template != [] {
      assert forall i :: 0 <= i < |template[1..]| ==> template[1..][i] == template[i + 1];
      NoTemplateFound(template[1..], key);
    }
  }

  lemma {:induction false} NothingEnforced(input: Input)
    ensures EnforceSections(input, []) == Done([])
  {
  }

  lemma {:induction false} EnforcedAt(input: Input, draft: seq<DraftSection>, i: nat)
    requires EnforceSections(input, draft).Done? && i < |draft|
    ensures |EnforceSections(input, draft).value| == |draft|
    ensures EnforceSection(input, draft[i]) == Done(EnforceSections(input, draft).value[i])
  {
    hide EnforceSection, EnforceSections;
    var front, last := draft[..|draft| - 1], draft[|draft| - 1];
    assert draft == front + [last];
    EnforcedLast(input, front, last);
    if front == [] {
      NothingEnforced(input);
    } else {
      EnforcedAt(input, front, if i < |front| then i else 0);
    }
  }

  lemma {:induction false} EnforcedAreCleaned(input: Input, draft: seq<DraftSection>)
    requires DistinctKeys(input.template) && SectionKeys(draft) == TemplateKeys(input.template) && EnforceSections(input, draft).Done?
    ensures AreCleaned(input, draft, EnforceSections(input, draft).value)
  {
    hide EnforceSections, EnforceSection, DistinctKeys, SectionKeys, TemplateKeys, IsCleaned;
    KeysAt(draft, input.template);
    var after := EnforceSections(input, draft).value;
    EnforcedKeys(input, draft);
    KeysAt(after, input.template);
    forall i | 0 <= i < |after| ensures IsCleaned(input, input.template[i], draft[i], after[i]) {
      EnforcedAt(input, draft, i);
      EnforcedIsCleaned(input, i, draft[i], after[i]);
    }
  }

  // ----- the whole run -----

  lemma {:induction false} GatedArePassedOn(input: Input, r: AuditedRound)
    requires DistinctKeys(input.template) && IsRecorded(input, r) && ApplyAudit(input, r.sections, r.audit).Done?
    ensures ArePassedOn(input, r, ApplyAudit(input, r.sections, r.audit).value)
    ensures SectionKeys(ApplyAudit(input, r.sections, r.audit).value) == TemplateKeys(input.template)
  {
    hide ApplyAudit, IsRecorded, IsApproved, IsFallback, SectionKeys, TemplateKeys, IsDocumentFault;
    GateIsSafe(input, r);
    KeysAt(ApplyAudit(input, r.sections, r.audit).value, input.template);
  }

  lemma {:induction false} GuardedArePassedOn(input: Input, r: AuditedRound, gated: seq<DraftSection>)
    requires DistinctKeys(input.template) && ArePassedOn(input, r, gated) && SectionKeys(gated) == TemplateKeys(input.template)
    requires EnsureNoBlanks(input, input.template, gated).Done?
    ensures ArePassedOn(input, r, EnsureNoBlanks(input, input.template, gated).value)
    ensures SectionKeys(EnsureNoBlanks(input, input.template, gated).value) == TemplateKeys(input.template)
  {
    hide EnsureNoBlanks, IsApproved, IsFallback, SectionKeys, TemplateKeys, DistinctKeys;
    GuardKeepsGated(input, gated);
    KeysAt(EnsureNoBlanks(input, input.template, gated).value, input.template);
  }

  /** Every run that returns is traced back to the writer's answers. */
  lemma {:induction false} PipelineIsTraced(input: Input) returns (repairs: seq<AuditedRound>, passed: seq<DraftSection>)
    requires DistinctKeys(input.template) && Pipeline(input).Done?
    ensures IsTraced(input, Pipeline(input).value, repairs, passed)
  {
    hide FirstRound, Repairs, CleanUp, ApplyAudit, EnsureNoBlanks, DistinctKeys, IsTraced, ArePassedOn, AreRepairs, IsRepairHistory;
    var first := FirstRound(input).value;
    FirstDraftIsTraced(input);
    FirstRoundIsSafe(input);
    FirstIsRepairs(input, first);
    repairs := Repairs(input, [first], 0).value;
    RepairsAreTraced(input, [first], 0);
    var n :| 0 <= n <= 2 && IsRepairHistory(input, repairs, n);
    passed := FinishIsTraced(input, repairs, n);
  }

  lemma {:induction false} FirstIsRepairs(input: Input, first: AuditedRound)
    requires first.round == 0 && IsFirstDraft(input, first.sections)
    ensures AreRepairs(input, [first])
  {
  }

  lemma {:induction false} FinishIsTraced(input: Input, repairs: seq<AuditedRound>, n: nat) returns (passed: seq<DraftSection>)
    requires DistinctKeys(input.template) && IsRepairHistory(input, repairs, n) && AreRepairs(input, repairs) && AreOver(Last(repairs))
    requires Finish(input, repairs).Done?
    ensures IsTraced(input, Finish(input, repairs).value, repairs, passed)
  {
    hide ApplyAudit, EnsureNoBlanks, DistinctKeys, ArePassedOn, AreRepairs, IsRecorded, AuditDocument, EnforceSections, AreCleaned, SectionKeys, TemplateKeys;
    var last := Last(repairs);
    var gated := ApplyAudit(input, last.sections, last.audit).value;
    GatedArePassedOn(input, last);
    passed := EnsureNoBlanks(input, input.template, gated).value;
    GuardedArePassedOn(input, last, gated);
    EnforcedAreCleaned(input, passed);
    var sections := EnforceSections(input, passed).value;
    if sections != passed {
      EnforcedKeys(input, passed);
      RecordRound(input, 3, sections);
      var final := AuditedRound(3, sections, AuditDocument(input, 3, sections).value);
      GatedArePassedOn(input, final);
      assert repairs <= repairs + [final];
    }
  }
}
