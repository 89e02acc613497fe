/**
 captured-document-operation.ts, lines 892-1341: which issues an assessment reports. Every
 code has a meaning of its own, and what is reported is exactly what these meanings say of
 the sections and of the review's JSON.
 */
module AssessmentIssues {
  import opened Texts
  import opened JsonText
  import opened CapturedPlan
  import opened CapturedAssessment
  import Utf8

  lemma {:induction false} InIf(condition: bool, code: IssueCode, key: Text, issue: Issue)
    ensures issue in IssueIf(condition, code, key) <==> condition && issue == Issue(code, key)
  {
  }

  // ----- a section against its contract -----

  predicate IsLeftOut(contract: SectionContract, s: SectionOutput) {
    !contract.required && s.state == Omitted
  }

  ghost predicate MayCite(plan: Plan, contract: SectionContract, reference: Text) {
    (contract.usesNeutralFallback && reference == SYSTEM_FALLBACK) || CitesDependency(plan, contract, reference)
  }

  ghost predicate CitesWrongly(plan: Plan, contract: SectionContract, s: SectionOutput, code: IssueCode) {
    match code
    case InvalidNeutralFallback => s.state == Fallback && (!contract.usesNeutralFallback || s.references != [SYSTEM_FALLBACK])
    case MissingSourceReference => s.state != Fallback && s.references == []
    case UnsupportedSourceReference => s.state != Fallback && exists r :: r in s.references && !MayCite(plan, contract, r)
    case _ => false
  }

  predicate IsShallow(judges: Judges, contract: SectionContract, s: SectionOutput) {
    s.state == Final && (judges.words(s.content) < contract.minWords || judges.bullets(s.content) < contract.minBullets)
  }

  /** What each code says of the section that is found for a contract. */
  ghost predicate Faults(judges: Judges, plan: Plan, contract: SectionContract, s: SectionOutput, code: IssueCode) {
    match code
    case SectionTooLarge => |s.content| > 40_000
    case RequiredSectionOmitted => contract.required && s.state == Omitted
    case OmittedSectionHasContent => IsLeftOut(contract, s) && ((exists i :: 0 <= i < |s.content| && !IsWhitespace(s.content[i])) || s.references != [])
    case BlankOutput => !IsLeftOut(contract, s) && judges.visiblyEmpty(s.content)
    case InstructionLeakage => !IsLeftOut(contract, s) && judges.leaksInstructions(s.content)
    case BelowMinimumDepth => IsShallow(judges, contract, s)
    case _ => !IsLeftOut(contract, s) && CitesWrongly(plan, contract, s, code)
  }

  /** What each code says of the section in the place of a contract. */
  ghost predicate UnitFaults(plan: Plan, contract: SectionContract, s: SectionOutput, code: IssueCode) {
    match code
    case SectionOrderMismatch => contract.sectionKey != s.sectionKey
    case UnresolvedClarification => s.sectionKey in plan.blocked
    case DuplicateSourceReference => exists i, j :: 0 <= i < j < |s.references| && s.references[i] == s.references[j]
    case OmittedBytesNotEmpty => s.state == Omitted && s.content != []
    case InvalidNeutralFallback => s.state == Fallback && !IsOwnFallback(plan, contract, s.content)
    case UnsupportedSourceReference => s.state == Final && exists r :: r in s.references && !(INPUT_PREFIX <= r)
    case _ => false
  }

  predicate IsOwnFallback(plan: Plan, contract: SectionContract, content: Text) {
    && contract.neutralFallback.NeutralFallback? && content == contract.neutralFallback.content
    && forall key :: key in contract.neutralFallback.whenInputsAbsent ==> !HasInput(plan.inputValues, key)
  }

  lemma {:induction false} AllowedExactly(plan: Plan, contract: SectionContract, reference: Text)
    ensures IsAllowed(plan, contract, reference) <==> MayCite(plan, contract, reference)
  {
    hide HasInput;
    if i :| 0 <= i < |contract.dependsOnInputs| && IsInputReference(plan, contract.dependsOnInputs[i], reference) {
      assert contract.dependsOnInputs[i] in contract.dependsOnInputs;
    }
    if key :| key in contract.dependsOnInputs && HasInput(plan.inputValues, key) && reference == INPUT_PREFIX + key {
      var i :| 0 <= i < |contract.dependsOnInputs| && contract.dependsOnInputs[i] == key;
      assert IsInputReference(plan, contract.dependsOnInputs[i], reference);
    }
  }

  lemma {:induction false} UnsupportedExactly(plan: Plan, contract: SectionContract, references: seq<Text>, issue: Issue)
    ensures issue in UnsupportedIssues(plan, contract, references)
       <==> issue == Issue(UnsupportedSourceReference, contract.sectionKey) && exists r :: r in references && !MayCite(plan, contract, r)
    decreases |references|
  {
    hide IsAllowed, MayCite, IssueIf;
    if references != [] {
      var front, last := references[..|references| - 1], references[|references| - 1];
      UnsupportedExactly(plan, contract, front, issue);
      AllowedExactly(plan, contract, last);
      InIf(!IsAllowed(plan, contract, last), UnsupportedSourceReference, contract.sectionKey, issue);
      assert references == front + [last];
    }
  }

  lemma {:induction false} ReferenceIssuesExactly(plan: Plan, contract: SectionContract, s: SectionOutput, issue: Issue)
    ensures issue in ReferenceIssues(plan, contract, s) <==> issue.sectionKey == contract.sectionKey && CitesWrongly(plan, contract, s, issue.code)
  {
    hide MayCite, UnsupportedIssues, IssueIf;
    UnsupportedExactly(plan, contract, s.references, issue);
    InIf(!contract.usesNeutralFallback || s.references != [SYSTEM_FALLBACK], InvalidNeutralFallback, contract.sectionKey, issue);
    InIf(s.references == [], MissingSourceReference, contract.sectionKey, issue);
  }

  lemma {:induction false} DepthIssuesExactly(judges: Judges, contract: SectionContract, s: SectionOutput, issue: Issue)
    ensures issue in DepthIssues(judges, contract, s) <==> issue == Issue(BelowMinimumDepth, contract.sectionKey) && IsShallow(judges, contract, s)
  {
  }

  lemma {:induction false} FaultsInTerms(judges: Judges, plan: Plan, contract: SectionContract, s: SectionOutput, code: IssueCode)
    ensures Faults(judges, plan, contract, s, code) <==>
      || (code == SectionTooLarge && |s.content| > MAX_SECTION_CONTENT)
      || (code == RequiredSectionOmitted && contract.required && s.state == Omitted)
      || (code == OmittedSectionHasContent && IsLeftOut(contract, s) && (IsVisible(s.content) || s.references != []))
      || (!IsLeftOut(contract, s) && (
           || (code == BlankOutput && judges.visiblyEmpty(s.content))
           || (code == InstructionLeakage && judges.leaksInstructions(s.content))
           || CitesWrongly(plan, contract, s, code)
           || (code == BelowMinimumDepth && IsShallow(judges, contract, s))))
  {
  }

  lemma {:induction false} SectionIssuesExactly(judges: Judges, plan: Plan, contract: SectionContract, s: SectionOutput, issue: Issue)
    ensures issue in SectionIssues(judges, plan, contract, s) <==> issue.sectionKey == contract.sectionKey && Faults(judges, plan, contract, s, issue.code)
  {
    hide CitesWrongly, IsShallow, ReferenceIssues, DepthIssues, IssueIf, IsVisible, Faults;
    var key := contract.sectionKey;
    FaultsInTerms(judges, plan, contract, s, issue.code);
    ReferenceIssuesExactly(plan, contract, s, issue);
    DepthIssuesExactly(judges, contract, s, issue);
    InIf(|s.content| > MAX_SECTION_CONTENT, SectionTooLarge, key, issue);
    InIf(contract.required && s.state == Omitted, RequiredSectionOmitted, key, issue);
    InIf(IsVisible(s.content) || s.references != [], OmittedSectionHasContent, key, issue);
    InIf(judges.visiblyEmpty(s.content), BlankOutput, key, issue);
    InIf(judges.leaksInstructions(s.content), InstructionLeakage, key, issue);
  }

  lemma {:induction false} RepeatsExactly(references: seq<Text>)
    ensures !NoRepeats(references) <==> exists i, j :: 0 <= i < j < |references| && references[i] == references[j]
  {
  }

  lemma {:induction false} InputsOnlyExactly(references: seq<Text>)
    ensures !CitesOnlyInputs(references) <==> exists r :: r in references && !(INPUT_PREFIX <= r)
  {
    if r :| r in references && !(INPUT_PREFIX <= r) {
      var i :| 0 <= i < |references| && references[i] == r;
      assert !StartsWith(references[i], INPUT_PREFIX);
    }
    if i :| 0 <= i < |references| && !StartsWith(references[i], INPUT_PREFIX) {
      assert references[i] in references && !(INPUT_PREFIX <= references[i]);
    }
  }

  lemma {:induction false} OwnFallbackExactly(plan: Plan, contract: SectionContract, content: Text)
    ensures FallbackIsExact(plan, contract, content) <==> IsOwnFallback(plan, contract, content)
  {
    hide HasInput;
    if FallbackIsExact(plan, contract, content) {
      forall key | key in contract.neutralFallback.whenInputsAbsent ensures !HasInput(plan.inputValues, key) {
        var i :| 0 <= i < |contract.neutralFallback.whenInputsAbsent| && contract.neutralFallback.whenInputsAbsent[i] == key;
      }
    }
    if IsOwnFallback(plan, contract, content) {
      forall i | 0 <= i < |contract.neutralFallback.whenInputsAbsent| ensures !HasInput(plan.inputValues, contract.neutralFallback.whenInputsAbsent[i]) {
        assert contract.neutralFallback.whenInputsAbsent[i] in contract.neutralFallback.whenInputsAbsent;
      }
    }
  }

  lemma {:induction false} UnitFaultsInTerms(plan: Plan, contract: SectionContract, s: SectionOutput, code: IssueCode)
    ensures UnitFaults(plan, contract, s, code) <==>
      || (code == SectionOrderMismatch && contract.sectionKey != s.sectionKey)
      || (code == UnresolvedClarification && s.sectionKey in plan.blocked)
      || (code == DuplicateSourceReference && !NoRepeats(s.references))
      || (code == OmittedBytesNotEmpty && s.state == Omitted && s.content != [])
      || (code == InvalidNeutralFallback && s.state == Fallback && !FallbackIsExact(plan, contract, s.content))
      || (code == UnsupportedSourceReference && s.state == Final && !CitesOnlyInputs(s.references))
  {
    hide NoRepeats, FallbackIsExact, IsOwnFallback, CitesOnlyInputs;
    RepeatsExactly(s.references);
    InputsOnlyExactly(s.references);
    OwnFallbackExactly(plan, contract, s.content);
  }

  lemma {:induction false} UnitIssuesExactly(plan: Plan, contract: SectionContract, s: SectionOutput, issue: Issue)
    ensures issue in UnitIssues(plan, contract, s) <==> issue.sectionKey == s.sectionKey && UnitFaults(plan, contract, s, issue.code)
  {
    hide NoRepeats, FallbackIsExact, IsOwnFallback, CitesOnlyInputs, IssueIf, UnitFaults;
    var key := s.sectionKey;
    UnitFaultsInTerms(plan, contract, s, issue.code);
    InIf(contract.sectionKey != key, SectionOrderMismatch, key, issue);
    InIf(key in plan.blocked, UnresolvedClarification, key, issue);
    InIf(!NoRepeats(s.references), DuplicateSourceReference, key, issue);
    InIf(s.state == Omitted && s.content != [], OmittedBytesNotEmpty, key, issue);
    InIf(!FallbackIsExact(plan, contract, s.content), InvalidNeutralFallback, key, issue);
    InIf(s.state == Final && !CitesOnlyInputs(s.references), UnsupportedSourceReference, key, issue);
  }

  // ----- the whole candidate -----

  /** The first section with the contract's key. */
  predicate IsFirstFor(sections: seq<SectionOutput>, k: nat, key: Text) {
    k < |sections| && sections[k].sectionKey == key && forall j :: 0 <= j < k ==> sections[j].sectionKey != key
  }

  ghost predicate IsContractIssue(judges: Judges, plan: Plan, sections: seq<SectionOutput>, contract: SectionContract, issue: Issue) {
    && issue.sectionKey == contract.sectionKey
    && exists k: nat :: IsFirstFor(sections, k, contract.sectionKey) && Faults(judges, plan, contract, sections[k], issue.code)
  }

  ghost predicate SomeContractIssue(judges: Judges, plan: Plan, sections: seq<SectionOutput>, n: nat, issue: Issue)
    requires n <= |plan.template.sections|
  {
    exists i :: 0 <= i < n && IsContractIssue(judges, plan, sections, plan.template.sections[i], issue)
  }

  ghost predicate SomeUnitIssue(plan: Plan, sections: seq<SectionOutput>, n: nat, issue: Issue)
    requires n <= |sections| <= |plan.template.sections|
  {
    exists i :: 0 <= i < n && issue.sectionKey == sections[i].sectionKey && UnitFaults(plan, plan.template.sections[i], sections[i], issue.code)
  }

  /** As many sections as contracts, no key twice, and one for every contract. */
  predicate IsComplete(template: Template, sections: seq<SectionOutput>) {
    && |sections| == |template.sections|
    && (forall i, j :: 0 <= i < j < |sections| ==> sections[i].sectionKey != sections[j].sectionKey)
    && forall c :: c in template.sections ==> exists i :: 0 <= i < |sections| && sections[i].sectionKey == c.sectionKey
  }

  ghost predicate IsPreparationIssue(judges: Judges, plan: Plan, c: Candidate, issue: Issue)
    requires |SectionsOf(c)| <= |plan.template.sections|
  {
    var sections := SectionsOf(c);
    || (issue == Issue(InvalidOutputShape, []) && !IsWhole(c))
    || (issue == Issue(SectionSetMismatch, []) && !IsComplete(plan.template, sections))
    || SomeContractIssue(judges, plan, sections, |plan.template.sections|, issue)
    || SomeUnitIssue(plan, sections, |sections|, issue)
  }

  lemma {:induction false} FindsFirst(sections: seq<SectionOutput>, key: Text) returns (k: nat)
    ensures FindSection(sections, key).Section? ==> IsFirstFor(sections, k, key) && sections[k] == FindSection(sections, key).section
    ensures FindSection(sections, key).NoSection? ==> forall j :: 0 <= j < |sections| ==> sections[j].sectionKey != key
  {
    k := 0;
    if sections != [] && sections[0].sectionKey != key {
      var j := FindsFirst(sections[1..], key);
      k := j + 1;
      assert forall i :: 1 <= i < |sections| ==> sections[i] == sections[1..][i - 1];
    }
  }

  lemma {:induction false} FoundIssuesExactly(judges: Judges, plan: Plan, sections: seq<SectionOutput>, contract: SectionContract, issue: Issue)
    ensures issue in FoundIssues(judges, plan, contract, sections) <==> IsContractIssue(judges, plan, sections, contract, issue)
  {
    hide SectionIssues, Faults, FindSection;
    var k := FindsFirst(sections, contract.sectionKey);
    if FindSection(sections, contract.sectionKey).Section? {
      SectionIssuesExactly(judges, plan, contract, sections[k], issue);
      assert forall j: nat :: IsFirstFor(sections, j, contract.sectionKey) ==> j == k;
    }
  }

  lemma {:induction false} ContractIssuesExactly(judges: Judges, plan: Plan, sections: seq<SectionOutput>, n: nat, issue: Issue)
    requires n <= |plan.template.sections|
    ensures issue in ContractIssues(judges, plan, sections, n) <==> SomeContractIssue(judges, plan, sections, n, issue)
  {
    hide FoundIssues, IsContractIssue;
    if n > 0 {
      ContractIssuesExactly(judges, plan, sections, n - 1, issue);
      FoundIssuesExactly(judges, plan, sections, plan.template.sections[n - 1], issue);
    }
  }

  lemma {:induction false} AllUnitIssuesExactly(plan: Plan, sections: seq<SectionOutput>, n: nat, issue: Issue)
    requires n <= |sections| <= |plan.template.sections|
    ensures issue in AllUnitIssues(plan, sections, n) <==> SomeUnitIssue(plan, sections, n, issue)
  {
    hide UnitIssues, UnitFaults;
    if n > 0 {
      AllUnitIssuesExactly(plan, sections, n - 1, issue);
      UnitIssuesExactly(plan, plan.template.sections[n - 1], sections[n - 1], issue);
    }
  }

  lemma {:induction false} CompleteExactly(template: Template, sections: seq<SectionOutput>)
    ensures IsComplete(template, sections) <==> IsExactSectionSet(template, sections)
  {
    var keys := OutputKeys(sections);
    if IsComplete(template, sections) {
      forall i | 0 <= i < |template.sections| ensures template.sections[i].sectionKey in keys {
        assert template.sections[i] in template.sections;
        var k :| 0 <= k < |sections| && sections[k].sectionKey == template.sections[i].sectionKey;
        assert keys[k] == template.sections[i].sectionKey;
      }
    }
    if IsExactSectionSet(template, sections) {
      forall i, j | 0 <= i < j < |sections| ensures sections[i].sectionKey != sections[j].sectionKey {
        assert keys[i] != keys[j];
      }
      forall c | c in template.sections ensures exists i :: 0 <= i < |sections| && sections[i].sectionKey == c.sectionKey {
        var i :| 0 <= i < |template.sections| && template.sections[i] == c;
        var k :| 0 <= k < |keys| && keys[k] == c.sectionKey;
      }
    }
  }

  /** Preparation reports exactly the faults of the candidate. */
  lemma {:induction false} PreparationIssuesExactly(judges: Judges, plan: Plan, c: Candidate, issue: Issue)
    requires |SectionsOf(c)| <= |plan.template.sections|
    ensures issue in PrepareIssues(judges, plan, c) <==> IsPreparationIssue(judges, plan, c, issue)
  {
    hide SectionsOf, IsWhole, IsComplete, IsExactSectionSet, ContractIssues, AllUnitIssues, SomeContractIssue, SomeUnitIssue, IssueIf;
    var sections := SectionsOf(c);
    CompleteExactly(plan.template, sections);
    ContractIssuesExactly(judges, plan, sections, |plan.template.sections|, issue);
    AllUnitIssuesExactly(plan, sections, |sections|, issue);
    InIf(!IsWhole(c), InvalidOutputShape, [], issue);
    InIf(!IsExactSectionSet(plan.template, sections), SectionSetMismatch, [], issue);
  }

  // ----- the review -----

  /** What each code says of a section and the review's item for it. */
  ghost predicate ReviewFaults(plan: Plan, section: SectionOutput, item: Json, code: IssueCode) {
    match code
    case CheckRejected => exists c :: c in GROUNDING_CHECKS && GetOrNull(GetOrNull(item, CHECKS), c) != Str(PASS)
    case Finding(text) => GetOrNull(item, ISSUES).Arr? && Finds(GetOrNull(item, ISSUES).items, text)
    case EvidenceInvalid => !(GetOrNull(item, EVIDENCE).Arr? && ListQuotes(plan, section, GetOrNull(item, EVIDENCE).items))
    case _ => false
  }

  predicate Finds(items: seq<Json>, text: Text) {
    exists k :: 0 <= k < |items| && GetOrNull(items[k], CODE) == Str(text)
  }

  lemma {:induction false} FindingsExactly(codes: seq<Text>, key: Text, issue: Issue)
    ensures issue in FindingIssues(codes, key) <==> issue.sectionKey == key && issue.code.Finding? && issue.code.code in codes
    decreases |codes|
  {
    if codes != [] {
      FindingsExactly(codes[..|codes| - 1], key, issue);
      assert codes == codes[..|codes| - 1] + [codes[|codes| - 1]];
    }
  }

  lemma {:induction false} CodesExactly(items: seq<Json>, text: Text)
    requires forall k :: 0 <= k < |items| ==> IsFinding(items[k])
    ensures text in FindingCodes(items) <==> Finds(items, text)
  {
    hide HasExactly, GetOrNull, IsVisible;
    var codes := FindingCodes(items);
    if text in codes {
      var k :| 0 <= k < |codes| && codes[k] == text;
      assert IsFinding(items[k]);
    }
    if k :| 0 <= k < |items| && GetOrNull(items[k], CODE) == Str(text) {
      assert codes[k] == text;
    }
  }

  /** Of an item that is read, exactly its rejected checks, findings and invalid evidence are reported. */
  lemma {:induction false} ItemIssuesExactly(plan: Plan, section: SectionOutput, item: Json, issue: Issue)
    requires VerdictIsClosed(item)
    ensures issue in VerdictIssues(plan, section, ReadVerdict(item))
       <==> issue.sectionKey == section.sectionKey && ReviewFaults(plan, section, item, issue.code)
  {
    hide HasExactly, GetOrNull, AllPass, IsFinding, IsEvidence, ListQuotes, EvidenceIsValid, EvidenceItems, FindingCodes, FindingIssues, Finds, IssueIf;
    var verdict, key := ReadVerdict(item), section.sectionKey;
    PassesExactly(GetOrNull(item, CHECKS));
    EvidenceExactly(plan, section, GetOrNull(item, EVIDENCE).items);
    ListIsEvidence(plan, section, GetOrNull(item, EVIDENCE).items);
    FindingsExactly(verdict.findings, key, issue);
    if issue.code.Finding? {
      CodesExactly(GetOrNull(item, ISSUES).items, issue.code.code);
    }
    InIf(!verdict.allPass, CheckRejected, key, issue);
    InIf(!EvidenceIsValid(plan, section, verdict.evidence), EvidenceInvalid, key, issue);
  }

  /** The review answers for exactly these sections: it names their digest, and has one closed item for each. */
  ghost predicate Answers(judges: Judges, plan: Plan, sections: seq<SectionOutput>, identity: Json, review: Json) {
    && HasExactly(review, [TARGET_SHA256, SECTIONS])
    && GetOrNull(review, TARGET_SHA256) == Str(TargetDigest(judges, plan, sections, identity))
    && |sections| == |plan.template.sections|
    && (sections != [] ==> GetOrNull(review, SECTIONS).Arr? && |GetOrNull(review, SECTIONS).items| == |sections|)
    && forall i :: 0 <= i < |sections| ==> AnswersFor(judges, sections[i], GetOrNull(review, SECTIONS).items[i])
  }

  ghost predicate AnswersFor(judges: Judges, section: SectionOutput, item: Json) {
    && VerdictIsClosed(item)
    && GetOrNull(item, SECTION_KEY) == Str(section.sectionKey)
    && GetOrNull(item, CONTENT_SHA256) == Str(judges.sha256(Utf8.Encode(section.content)))
  }

  lemma {:induction false} AnswersForExactly(judges: Judges, section: SectionOutput, item: Json)
    ensures AnswersFor(judges, section, item) <==> VerdictIsFor(judges, ReadVerdict(item), section)
  {
    hide HasExactly, GetOrNull, ChecksAreClosed, IsEvidence, IsFinding, AllPass, EvidenceItems, FindingCodes;
  }

  lemma {:induction false} AnswersExactly(judges: Judges, plan: Plan, sections: seq<SectionOutput>, identity: Json, review: Json)
    ensures Answers(judges, plan, sections, identity, review) <==> IsExactReview(judges, plan, sections, identity, review)
  {
    hide HasExactly, GetOrNull, AnswersFor, VerdictIsFor, ReadVerdict, TargetDigest;
    var list := GetOrNull(review, SECTIONS);
    if list.Arr? && |list.items| == |sections| {
      forall i | 0 <= i < |sections| ensures AnswersFor(judges, sections[i], list.items[i]) <==> VerdictIsFor(judges, ReadVerdicts(list.items)[i], sections[i]) {
        AnswersForExactly(judges, sections[i], list.items[i]);
      }
    }
  }

  ghost predicate SomeReviewIssue(plan: Plan, sections: seq<SectionOutput>, items: seq<Json>, n: nat, issue: Issue)
    requires n <= |sections| == |items|
  {
    exists i :: 0 <= i < n && issue.sectionKey == sections[i].sectionKey && ReviewFaults(plan, sections[i], items[i], issue.code)
  }

  lemma {:induction false} VerdictIssuesExactly(plan: Plan, sections: seq<SectionOutput>, items: seq<Json>, n: nat, issue: Issue)
    requires n <= |sections| == |items|
    requires forall i :: 0 <= i < |items| ==> VerdictIsClosed(items[i])
    requires AllVerdicts(ReadVerdicts(items))
    ensures issue in AllVerdictIssues(plan, sections, ReadVerdicts(items), n) <==> SomeReviewIssue(plan, sections, items, n, issue)
  {
    hide VerdictIssues, ReviewFaults, ReadVerdict, VerdictIsClosed, ReadVerdicts;
    var verdicts := ReadVerdicts(items);
    if n > 0 {
      VerdictIssuesExactly(plan, sections, items, n - 1, issue);
      assert verdicts[n - 1] == ReadVerdict(items[n - 1]) && verdicts[n - 1].Verdict?;
      ItemIssuesExactly(plan, sections[n - 1], items[n - 1], issue);
      assert issue in AllVerdictIssues(plan, sections, verdicts, n)
        <==> issue in AllVerdictIssues(plan, sections, verdicts, n - 1) || issue in VerdictIssues(plan, sections[n - 1], verdicts[n - 1]);
    }
  }

  /** The issue is due: for the candidate, for the review's answer, or for want of one. */
  ghost predicate IsDue(judges: Judges, plan: Plan, raw: Json, identity: Json, review: Json, issue: Issue) {
    var c := ReadCandidate(plan.template, raw);
    var sections := SectionsOf(c);
    || IsPreparationIssue(judges, plan, c, issue)
    || if Answers(judges, plan, sections, identity, review) then
         sections != [] && SomeReviewIssue(plan, sections, GetOrNull(review, SECTIONS).items, |sections|, issue)
       else issue == Issue(if review == Null then ReviewRequired else ReviewIdentityMismatch, [])
  }

  lemma {:induction false} ReadsItems(judges: Judges, plan: Plan, sections: seq<SectionOutput>, identity: Json, review: Json)
    requires Answers(judges, plan, sections, identity, review) && sections != []
    ensures GetOrNull(review, SECTIONS).Arr? && |GetOrNull(review, SECTIONS).items| == |sections|
    ensures VerdictsOf(review, |sections|) == ReadVerdicts(GetOrNull(review, SECTIONS).items)
    ensures forall i :: 0 <= i < |sections| ==> VerdictIsClosed(GetOrNull(review, SECTIONS).items[i])
  {
    hide HasExactly, GetOrNull, VerdictIsClosed, ReadVerdicts;
  }

  lemma {:induction false} AssessUnfolds(judges: Judges, plan: Plan, raw: Json, identity: Json, review: Json)
    requires MayAssess(judges, plan, identity)
    ensures Assess(judges, plan, raw, identity, review).Assessed?
    ensures var c := ReadCandidate(plan.template, raw);
            var sections := SectionsOf(c);
            var verdicts := VerdictsOf(review, |sections|);
            var exact := IsExactReview(judges, plan, sections, identity, review);
            && (exact ==> |verdicts| == |sections| && AllVerdicts(verdicts))
            && Assess(judges, plan, raw, identity, review).issues == PrepareIssues(judges, plan, c) +
                 if exact then AllVerdictIssues(plan, sections, verdicts, |sections|)
                 else [Issue(if review.Null? then ReviewRequired else ReviewIdentityMismatch, [])]
  {
    hide MayAssess, ReadCandidate, SectionsOf, PrepareIssues, EvidenceIsComplete, VerdictsOf, AllVerdictIssues, IsExactReview, AllVerdicts;
    var sections := SectionsOf(ReadCandidate(plan.template, raw));
    if IsExactReview(judges, plan, sections, identity, review) {
      ExactReviewHasVerdicts(judges, plan, sections, identity, review);
    }
  }

  lemma {:induction false} ReviewIssuesExactly(judges: Judges, plan: Plan, sections: seq<SectionOutput>, identity: Json, review: Json, issue: Issue)
    requires Answers(judges, plan, sections, identity, review)
    ensures |VerdictsOf(review, |sections|)| == |sections| && AllVerdicts(VerdictsOf(review, |sections|))
    ensures sections != [] ==> GetOrNull(review, SECTIONS).Arr? && |GetOrNull(review, SECTIONS).items| == |sections|
    ensures issue in AllVerdictIssues(plan, sections, VerdictsOf(review, |sections|), |sections|)
       <==> sections != [] && SomeReviewIssue(plan, sections, GetOrNull(review, SECTIONS).items, |sections|, issue)
  {
    hide Answers, IsExactReview, VerdictsOf, AllVerdictIssues, SomeReviewIssue, GetOrNull, ReadVerdicts, VerdictIsClosed, AllVerdicts;
    AnswersExactly(judges, plan, sections, identity, review);
    ExactReviewHasVerdicts(judges, plan, sections, identity, review);
    if sections != [] {
      ReadsItems(judges, plan, sections, identity, review);
      VerdictIssuesExactly(plan, sections, GetOrNull(review, SECTIONS).items, |sections|, issue);
    } else {
      NothingReviewed(plan, VerdictsOf(review, 0), issue);
    }
  }

  /** What an assessment reports is exactly what is due. */
  lemma {:induction false} IssuesExactly(judges: Judges, plan: Plan, raw: Json, identity: Json, review: Json, issue: Issue)
    requires MayAssess(judges, plan, identity)
    ensures Assess(judges, plan, raw, identity, review).Assessed?
    ensures issue in Assess(judges, plan, raw, identity, review).issues <==> IsDue(judges, plan, raw, identity, review, issue)
  {
    hide MayAssess, ReadCandidate, SectionsOf, PrepareIssues, VerdictsOf, AllVerdictIssues, Assess, IsPreparationIssue, IsExactReview,
         Answers, SomeReviewIssue, AllVerdicts, GetOrNull, ReadVerdicts, VerdictIsClosed, HasExactly, TargetDigest;
    var c := ReadCandidate(plan.template, raw);
    var sections := SectionsOf(c);
    AssessUnfolds(judges, plan, raw, identity, review);
    NoMoreThanContracts(plan.template, raw);
    PreparationIssuesExactly(judges, plan, c, issue);
    AnswersExactly(judges, plan, sections, identity, review);
    if Answers(judges, plan, sections, identity, review) {
      ReviewIssuesExactly(judges, plan, sections, identity, review, issue);
    }
  }

  lemma {:induction false} NoMoreThanContracts(template: Template, raw: Json)
    ensures |SectionsOf(ReadCandidate(template, raw))| <= |template.sections|
  {
  }

  lemma {:induction false} NothingReviewed(plan: Plan, verdicts: seq<Verdict>, issue: Issue)
    requires verdicts == [] && AllVerdicts(verdicts)
    ensures issue !in AllVerdictIssues(plan, [], verdicts, 0)
  {
  }

  /** The evidence counts as complete exactly when preparation finds nothing and the review answers with valid evidence for every section. */
  lemma {:induction false} EvidenceIsCompleteExactly(judges: Judges, plan: Plan, raw: Json, identity: Json, review: Json)
    requires MayAssess(judges, plan, identity)
    ensures Assess(judges, plan, raw, identity, review).Assessed?
    ensures var c := ReadCandidate(plan.template, raw);
            var sections := SectionsOf(c);
            Assess(judges, plan, raw, identity, review).complete <==>
              && (forall issue :: !IsPreparationIssue(judges, plan, c, issue))
              && Answers(judges, plan, sections, identity, review)
              && forall i :: 0 <= i < |sections| ==>
                   GetOrNull(GetOrNull(review, SECTIONS).items[i], EVIDENCE).Arr?
                   && ListQuotes(plan, sections[i], GetOrNull(GetOrNull(review, SECTIONS).items[i], EVIDENCE).items)
  {
    hide MayAssess, ReadCandidate, SectionsOf, PrepareIssues, VerdictsOf, Assess, IsPreparationIssue, IsExactReview, Answers, AllVerdicts,
         GetOrNull, EvidenceIsComplete, ListQuotes;
    var c := ReadCandidate(plan.template, raw);
    var sections := SectionsOf(c);
    CompleteUnfolds(judges, plan, raw, identity, review);
    NoMoreThanContracts(plan.template, raw);
    AnswersExactly(judges, plan, sections, identity, review);
    forall issue ensures issue in PrepareIssues(judges, plan, c) <==> IsPreparationIssue(judges, plan, c, issue) {
      PreparationIssuesExactly(judges, plan, c, issue);
    }
    if PrepareIssues(judges, plan, c) != [] {
      assert PrepareIssues(judges, plan, c)[0] in PrepareIssues(judges, plan, c);
    }
    if Answers(judges, plan, sections, identity, review) {
      EvidenceListsExactly(judges, plan, sections, identity, review);
    }
  }

  lemma {:induction false} CompleteUnfolds(judges: Judges, plan: Plan, raw: Json, identity: Json, review: Json)
    requires MayAssess(judges, plan, identity)
    ensures Assess(judges, plan, raw, identity, review).Assessed?
    ensures var c := ReadCandidate(plan.template, raw);
            var sections := SectionsOf(c);
            Assess(judges, plan, raw, identity, review).complete <==>
              IsExactReview(judges, plan, sections, identity, review) && PrepareIssues(judges, plan, c) == []
              && EvidenceIsComplete(plan, sections, VerdictsOf(review, |sections|))
  {
    hide MayAssess, ReadCandidate, SectionsOf, PrepareIssues, EvidenceIsComplete, VerdictsOf, AllVerdictIssues, IsExactReview, AllVerdicts;
    var sections := SectionsOf(ReadCandidate(plan.template, raw));
    if IsExactReview(judges, plan, sections, identity, review) {
      ExactReviewHasVerdicts(judges, plan, sections, identity, review);
    }
  }

  lemma {:induction false} EvidenceListsExactly(judges: Judges, plan: Plan, sections: seq<SectionOutput>, identity: Json, review: Json)
    requires Answers(judges, plan, sections, identity, review)
    ensures EvidenceIsComplete(plan, sections, VerdictsOf(review, |sections|)) <==>
      forall i :: 0 <= i < |sections| ==>
        GetOrNull(GetOrNull(review, SECTIONS).items[i], EVIDENCE).Arr?
        && ListQuotes(plan, sections[i], GetOrNull(GetOrNull(review, SECTIONS).items[i], EVIDENCE).items)
  {
    hide HasExactly, GetOrNull, EvidenceIsValid, ListQuotes, ReadVerdict, VerdictIsClosed, TargetDigest;
    AnswersExactly(judges, plan, sections, identity, review);
    ExactReviewHasVerdicts(judges, plan, sections, identity, review);
    if sections != [] {
      ReadsItems(judges, plan, sections, identity, review);
      var items := GetOrNull(review, SECTIONS).items;
      forall i | 0 <= i < |sections|
        ensures EvidenceIsValid(plan, sections[i], ReadVerdicts(items)[i].evidence)
           <==> GetOrNull(items[i], EVIDENCE).Arr? && ListQuotes(plan, sections[i], GetOrNull(items[i], EVIDENCE).items)
      {
        ItemEvidenceExactly(plan, sections[i], items[i]);
      }
    }
  }

  lemma {:induction false} ItemEvidenceExactly(plan: Plan, section: SectionOutput, item: Json)
    requires VerdictIsClosed(item)
    ensures EvidenceIsValid(plan, section, ReadVerdict(item).evidence)
       <==> GetOrNull(item, EVIDENCE).Arr? && ListQuotes(plan, section, GetOrNull(item, EVIDENCE).items)
  {
    hide HasExactly, GetOrNull, AllPass, IsFinding, IsEvidence, ListQuotes, EvidenceIsValid, EvidenceItems, FindingCodes;
    EvidenceExactly(plan, section, GetOrNull(item, EVIDENCE).items);
  }
}
