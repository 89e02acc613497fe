# Verification of the document service's deterministic kernels

The document service drafts, reviews, stores and exports documents. What it promises
rests on a handful of deterministic kernels: a compiler from one JSON schema to
another, two hand-written scanners, a cycle finder, byte and text encoders behind
SHA-256 commitments, a checksum and a chunk walk, and two state machines, the audited
drafting pipeline and the durable runner of captured operations. This project models
those kernels in Dafny 4.11 and proves what they are relied on for. `dafny verify
dfyconfig.toml` checks it.

## How to read it

One module models one source file or component.

| modules | about |
|---|---|
| `Texts`, `Utf8`, `JsNumbers`, `JsonText`, `CanonicalJson`, `JsonGrammar` | UTF-16 text, UTF-8 (RFC 3629), JavaScript numbers, `JSON.stringify`, canonical comparison, the JSON grammar (RFC 8259) |
| `OutputSchema` | taking `uniqueItems` out of a schema and putting it back as a check |
| `DocumentPipeline`, `DraftTrace`, `ConcurrentMap` | write, audit, repair, isolate; a returned run step by step; the map with a ceiling on concurrent work |
| `CapturedPlan`, `PlanRules`, `CapturedAssessment`, `AssessmentIssues` | planning and restoring a captured document; whether it may be released, and what is reported if not |
| `OperationStore`, `StoreRules`, `CapturedRunner` | the durable record as the SQL functions keep it; leases and endings; runs against it |
| `TerminalAttempts` | one terminal model attempt under lost acknowledgements |
| `DependencyCycle`, `JsonBounds`, `PlanTimes`, `PlanCalendar` | cycle search, bounds of a JSON request, lexicographic timestamps |
| `XmlText`, `XmlTag`, `XmlReferences`, `BoundedXml`, `XmlTree`, `BoundedRtf` | the two scanners; what XML text decodes to; the element tree of an XML document |
| `Crc32`, `PngImage` | table-driven CRC-32, PNG chunks |
| `Placeholders`, `PlaceholderRules` | printing, parsing, masking and resolving placeholder tokens |
| `AuditBinding`, `AuditRoster` | framed commitments, source budget, roster and size of an audit binding |

Code that works step by step is a method with its loop or a class with its fields, and
is proved equal to a function, or to a characterisation of what it accepts; lemmas then
say what the service is promised about that function. Lemmas whose names end in
`Exactly` say what a function decides or computes without that function, in both
directions. `Texts.Text` is a sequence of
UTF-16 code units, because several kernels tell lone surrogates apart. What a kernel
takes from outside is arbitrary: the writer, the auditors and the text heuristics of
the pipeline, the word counts and the digest of the assessment, the provider, the
transport and everyone else who may touch the record of an operation. `Judges`,
`Heuristics`, `Oracles`, `Script` and `Database.schedule` stand for them, and the
results hold for every choice.

The scanners are exact in both directions: what is accepted is a document with its
tokens, and what is refused is no document. In the XML modules the second half is
stated with a ghost argument or field `guess`, an arbitrary token, tag or document:
if the guess is one, it is what the method returns.

Where the code and its promises differ, the code is modelled:

- `String(type)` of a list with one name is that name, so a union branch
  `type: ["null"]` gets a selector that matches nothing. What a prepared schema then
  accepts is exactly what the source accepts and keeps (`OutputSchema.PreparedSchemaIsExact`):
  in every union with uniqueness some branch of one named type must fit the value.
  `ListOfOneTypeIsLost` says which values are lost, `NullIsLost` shows one.
- A review of a document without sections is asked for its digest only: its list of
  sections may be anything (`CapturedAssessment.PassedExactly`).
- A plan survives its own snapshot only if its keys are trimmed
  (`CapturedPlan.RestoreOfPlan` says exactly when).
- Two placeholder resolutions commute only if their answers are equal or they share no
  token that occurs (`Placeholders.ResolutionsCommute` says exactly when), and the second
  one fails if the first has resolved its placeholder (`SecondSucceedsExactly`).
- The SQL function that completes an attempt returns no checkpoint, so an undisturbed run
  that generates a candidate stores it, reports that the result is being confirmed, and
  stops; the next run finds it. A reply in the model may show what the SQL returns or the
  whole record: `CapturedRunner.Runner.RunStage` says for which replies a stage finishes in
  its own run, and `ThreeRuns` that three runs are enough whatever the replies show.

## Model

| member | source | states |
|---|---|---|
| JsNumbers.PrintNumberIsInjective | supabase/functions/_shared/captured-document-operation.ts:164-176 | `String(n)` in any of its five printing forms can be read back, so distinct finite numbers have distinct texts |
| JsonText.StringifyIsInjective | supabase/functions/_shared/captured-document-operation.ts:164-176 | `JSON.stringify` is unambiguous on all values, lone surrogates and nested containers included: equal texts come from identical values |
| CanonicalJson.CanonicalJsonIsFaithful | supabase/functions/_shared/captured-document-operation.ts:164-176 | for all JSON values, equal canonical texts if and only if the values are equal up to the order of object properties, so comparing snapshots as strings is exact |
| CanonicalJson.CanonicalOptionalIsFaithful | supabase/functions/_shared/captured-document-operation.ts:164-176 | the same when either side may be `undefined`, whose text is never that of a JSON value |
| CanonicalJson.SortedTextIsFaithful | supabase/functions/_shared/openai-output-schema.ts:23-31 | rebuilding objects with sorted keys and printing them is an exact comparison key too, although array-index keys are enumerated first |
| JsonGrammar.CanonicalJsonWrites | supabase/functions/_shared/captured-document-operation.ts:164-176 | the canonical text is a JSON text by the grammar, said as a relation, of the value itself with the names of every object in ascending order of their code units |
| JsonGrammar.StringifyWrites | supabase/functions/_shared/captured-document-operation.ts:164-176 | `JSON.stringify` writes the value by the grammar: every character itself, by its short escape or by its number, every number by digits that denote it, items and fields in order without white space |
| JsonGrammar.ArrayIndexExactly | supabase/functions/_shared/openai-output-schema.ts:23-31 | the names that a rebuilt object enumerates first are exactly the numerals of the numbers below 2^32 - 1, in the order of those numbers |
| Utf8.EncodeIsInjective | supabase/functions/_shared/document-audit-binding.ts:43-59 | on text without lone surrogates UTF-8 loses nothing |
| Utf8.EncodeWrites | supabase/functions/_shared/document-audit-binding.ts:43-59 | the bytes are, code point by code point, the one shortest form of the table in RFC 3629, with the replacement character for a lone surrogate |
| OutputSchema.PreparedSchemaPreservesMeaning | supabase/functions/_shared/openai-output-schema.ts:81-186 | a value satisfies the source schema exactly when it satisfies the wire schema and the compiled checks, for every prepared schema in whose unions with uniqueness every list of one type stands beside a branch that names the type, or `number` for `integer`, alone and without uniqueness |
| OutputSchema.PreparedSchemaIsExact | supabase/functions/_shared/openai-output-schema.ts:81-186 | for every schema that is prepared, every value and every reading of the keywords the compiler does not look at: wire schema and checks accept exactly the values of the source schema that are kept, so nothing is ever let through that the source refuses; the wire schema is the source without `uniqueItems` at any depth |
| OutputSchema.ChecksHoldExactly | supabase/functions/_shared/openai-output-schema.ts:81-172 | the compiled checks of a part hold for a value exactly when uniqueness holds wherever it applies and every union with uniqueness has a branch of one named type that fits the value and whose own checks hold; what the value satisfies otherwise plays no part |
| OutputSchema.PrepareRefusesExactly | supabase/functions/_shared/openai-output-schema.ts:81-186 | preparation throws exactly for misplaced or malformed `uniqueItems`, sub-schemas that are no objects, uniqueness combined with a reference, and unions with uniqueness of which a branch is neither of one named type other than object nor a closed object that requires all it declares, or two branches are of one kind: the same type name, an integer counting as a number, or the same declared names |
| OutputSchema.SelectsExactly | supabase/functions/_shared/openai-output-schema.ts:33-79 | a branch gets a selector exactly when it names one type other than object, or lists just one such name, or is a closed object that requires each declared name as often as it declares it |
| OutputSchema.SameIdentityExactly | supabase/functions/_shared/openai-output-schema.ts:33-79 | two branches with selectors have one identity exactly when both are closed objects that declare the same names, or both print the same type name, `integer` alone being printed as `number` |
| OutputSchema.PayloadsArePrepared | supabase/functions/_shared/openai-output-schema.ts:126-155 | closed payloads that declare different names are prepared, however many there are and whatever uniqueness they hold |
| OutputSchema.NullableIsPrepared | supabase/functions/_shared/openai-output-schema.ts:126-155 | a branch of one type beside `null` is prepared, in either order, so a nullable unique array is |
| OutputSchema.UniqueCheckIsExact | supabase/functions/_shared/openai-output-schema.ts:96-103 | the size of the set of canonical texts is the length of the array exactly when no two items are the same JSON value |
| OutputSchema.SelectorCoversBranch | supabase/functions/_shared/openai-output-schema.ts:33-79 | a value that a branch with a single type accepts is matched by the selector of that branch |
| OutputSchema.MatchingSelectorsShareIdentity | supabase/functions/_shared/openai-output-schema.ts:33-79 | selectors that match one value have the same identity, so a branch cannot borrow the check of another one |
| OutputSchema.UniqueUnionIsExact | supabase/functions/_shared/openai-output-schema.ts:126-155 | for every prepared union with uniqueness, lists of types included: some wire branch accepts and the check holds exactly when some branch accepts with its uniqueness and a branch of one named type that fits the value has checks that hold |
| OutputSchema.ListOfOneTypeIsLost | supabase/functions/_shared/openai-output-schema.ts:49-77 | whatever the union and the listed branch: a value that a branch with a list of types accepts and that no single-typed neighbour fits is accepted before and after by the union, and fails its compiled check |
| OutputSchema.NullIsLost | supabase/functions/_shared/openai-output-schema.ts:49-77 | one such input: `anyOf` of `type: ["null"]` and a unique array is prepared and accepts null, but its check does not |
| OutputSchema.Compile | supabase/functions/_shared/openai-output-schema.ts:81-172 | the loops that clone, push checks and raise flags compute the compiled part of the schema that the lemmas are about |
| OutputSchema.FindClash | supabase/functions/_shared/openai-output-schema.ts:138-148 | the nested search over selectors finds a clash exactly when two branches share an identity and one of them needs its check |
| DocumentPipeline.RunDocumentPipeline | supabase/functions/_shared/document-pipeline.ts:1743-1838 | a run that returns, whatever the writer and the auditors answer, is a safe run in the sense of the next row |
| DocumentPipeline.PipelineIsSafe | supabase/functions/_shared/document-pipeline.ts:1553-1838 | for arbitrary answers: the last audit was grounding-complete; every audit holds each finding of the quality auditor's own answer, each deterministic finding whose key is new, what the grounding auditor's own answer says of the units, and nothing else; the sections are the template's in order, each the wording of the last audit or the deterministic fallback; no kept section has a blocking finding scoped to it in the auditor's last answer or an ungrounded unit; document-level faults are isolated unless they are the blank output that was recovered; the rounds in between are audits of consecutive repairs |
| DraftTrace.PipelineIsTraced | supabase/functions/_shared/document-pipeline.ts:1553-1838 | a returned run from its first draft to its end: every round is written, audited and repaired in the way of the next rows, the gate passes on approved wording or slots, the cleaned wording is audited once more exactly when it differs, and the placeholders of what is returned hold together |
| DraftTrace.WriteSectionExactly | supabase/functions/_shared/document-pipeline.ts:985-1160 | one section is written as a wording if and only if that is an answer: the writer's text if it is not weak, else the answer to one retry that names the weakness, else what can be stripped from it, else the slot; a writer out of repairs leaves the slot, and every other failure fails |
| DraftTrace.FaultedIsRewritten | supabase/functions/_shared/document-pipeline-utils.ts:278-305 | a section is rewritten by a repair exactly when a finding names it that is no warning about the audit itself |
| DraftTrace.RepairIsTraced | supabase/functions/_shared/document-pipeline.ts:1772-1798 | in a repair every faulted section is the writer's answer to its own findings, given its previous wording and the number of the round, and every other one is as it was |
| DraftTrace.EnforcedIsCleaned | supabase/functions/_shared/document-pipeline.ts:1631-1716 | the cleanup leaves fine wording alone; otherwise it takes a fine retry, else what can be stripped from the retry, else from the wording before it, else the slot |
| DraftTrace.UnknownIsStripped | supabase/functions/_shared/document-pipeline.ts:1631-1716 | a section that the template does not know is never rewritten: it is left if fine, else stripped, else the slot of its own title |
| DocumentPipeline.RepairKeepsUnaffected | supabase/functions/_shared/document-pipeline.ts:1772-1798 | a repair round leaves every section unchanged that no finding asks to rewrite |
| DocumentPipeline.GateIsSafe | supabase/functions/_shared/document-pipeline.ts:545-733 | what one pass of the audit gate lets through: audited wording without blocking issue, or the fallback |
| DocumentPipeline.FaultedIsIsolated | supabase/functions/_shared/document-pipeline.ts:545-733 | a blocking issue scoped to a template section makes the gate put the fallback there |
| DocumentPipeline.UnfaultedIsGrounded | supabase/functions/_shared/document-pipeline-utils.ts:186-263 | in a grounding-complete audit, a section without blocking issue has every factual unit graded as convention, guidance or quoted support |
| DocumentPipeline.GateFailsExactly | supabase/functions/_shared/document-pipeline.ts:1553-1604 | the gate stops a run for three reasons and no other: an incomplete audit, an unrecoverable document-level issue, or a fallback that cannot be printed |
| DocumentPipeline.GateKeepsPassingSections | supabase/functions/_shared/document-pipeline.ts:1553-1604 | a section that no blocking finding names passes the gate unchanged, whatever happens to its siblings |
| DocumentPipeline.ApprovedDraftIsReturned | supabase/functions/_shared/document-pipeline.ts:1743-1838 | clean wording that both auditors approve is returned exactly as written, after one audit |
| DocumentPipeline.EnforceFinalText | supabase/functions/_shared/document-pipeline.ts:1631-1716 | the cleanup loop computes the enforced sections and stops at the first one that fails |
| DocumentPipeline.EnforcedKeys | supabase/functions/_shared/document-pipeline.ts:1631-1716 | the cleanup keeps the section keys and their order |
| DocumentPipeline.EnsureNoBlanks | supabase/functions/_shared/document-pipeline.ts:1606-1629 | the result has one section per template section, in template order |
| DocumentPipeline.EnsuredIsSettled | supabase/functions/_shared/document-pipeline.ts:1606-1629 | a section that is blank afterwards is already the fallback of its template section |
| DocumentPipeline.LastWithKey | supabase/functions/_shared/document-pipeline.ts:1606-1629 | a map built from the sections finds a key exactly when some section has it |
| ConcurrentMap.MapWithConcurrency | supabase/functions/_shared/document-pipeline-utils.ts:52-77 | under every order of completions the results are those of the sequential map, in input order, and never more than max(1, min(floor(limit), n)) calls are in flight |
| ConcurrentMap.Mapper.Claim | supabase/functions/_shared/document-pipeline-utils.ts:66-73 | a claim takes the next index, once and in order, and stops a worker only when none is left |
| ConcurrentMap.Mapper.Complete | supabase/functions/_shared/document-pipeline-utils.ts:66-73 | a completion fills in the worker's own index and nothing else, and that worker alone goes on to the next unclaimed index |
| CapturedPlan.PlanPartitionIsExact | supabase/functions/_shared/captured-document-operation.ts:178-269 | blocked and safe keys are the section keys in section order, split by whether the section depends on a required input without a value, and hold nothing else |
| CapturedPlan.HasValueExactly | supabase/functions/_shared/captured-document-operation.ts:116-125 | an input has a value exactly when a number, a boolean or a text with something visible stands somewhere inside it: `false` and zero count, blank texts and null do not |
| PlanRules.PlanExactly | supabase/functions/_shared/captured-document-operation.ts:191-269 | an object is planned exactly when the inputs it keeps take at most 256,000 bytes; the plan keeps, in order, exactly the inputs that the template asks for and that have a value, with a source, a permission and a confirmation for each, and lists the required inputs without a value in ascending order |
| CapturedPlan.MoreInputsNeverBlock | supabase/functions/_shared/captured-document-operation.ts:178-269 | planning the same template with more inputs blocks no section and leaves no input unresolved that was not before, and keeps every safe section safe |
| CapturedPlan.PlanListsNoRepeats | supabase/functions/_shared/captured-document-operation.ts:191-269 | every list of keys in a plan is free of repeats |
| CapturedPlan.RestoreInputPlan | supabase/functions/_shared/captured-document-operation.ts:271-467 | the step-by-step check of a stored snapshot computes the restored plan that the lemmas are about |
| PlanRules.RestoreExactly | supabase/functions/_shared/captured-document-operation.ts:271-467 | a snapshot is restored to a plan if and only if every part of it says what the plan says: the identity and the ledger, the inputs and their values, the three lists of trimmed keys and their partition, one source of each input with the same value, the permissions and the confirmations |
| CapturedPlan.CheckSources | supabase/functions/_shared/captured-document-operation.ts:271-467 | the loop over the stored sources accepts exactly the lists whose every element passes, and keeps what it read |
| CapturedPlan.CheckConfirmations | supabase/functions/_shared/captured-document-operation.ts:271-467 | the loop over the confirmations accepts exactly when every input is confirmed by its own source |
| CapturedPlan.RestoreOfPlan | supabase/functions/_shared/captured-document-operation.ts:191-467 | restoring the snapshot of any planned input returns the same plan if and only if the stored keys are trimmed; otherwise it refuses |
| CapturedPlan.RestoredPlanIsSound | supabase/functions/_shared/captured-document-operation.ts:271-467 | whatever the database returns, a plan restored from it has the exact partition, sources that say what the accepted inputs say, and the confirmations of exactly those inputs |
| CapturedPlan.RestoreIsIdempotent | supabase/functions/_shared/captured-document-operation.ts:271-467 | checking the snapshot of a restored plan again never refuses and changes nothing |
| CapturedAssessment.PassedExactly | supabase/functions/_shared/captured-document-operation.ts:1236-1341 | a candidate passes if and only if the contract demands review of its exact wording, the identity and plan are accepted, the candidate's JSON is that of sections which are releasable under their contracts in contract order, and the review's JSON answers for exactly this wording, says "pass" under the name of every check of every section, reports nothing and quotes every citation verbatim; and what is released is the candidate |
| CapturedAssessment.PreparationExactly | supabase/functions/_shared/captured-document-operation.ts:892-1069 | preparation finds no issue exactly when the candidate is whole and every section is releasable |
| CapturedAssessment.NoIssuesExactly | supabase/functions/_shared/captured-document-operation.ts:631-766 | one section draws no issue exactly when it is releasable: finals cite present dependencies only, fallbacks are the contract's text, omissions are optional and empty, nothing blocked |
| CapturedAssessment.ApprovedExactly | supabase/functions/_shared/captured-document-operation.ts:1236-1341 | a review of the right shape raises nothing exactly when its JSON approves: under every section the value of every named check is "pass", the list of findings is empty, and the evidence quotes what the section cites, once for each citation at least |
| CapturedAssessment.PassesExactly | supabase/functions/_shared/captured-document-operation.ts:1164-1223 | the checks of a section pass exactly when they are the six named ones, each with the value "pass"; "uncertain" does not pass |
| CapturedAssessment.CandidateExactly | supabase/functions/_shared/captured-document-operation.ts:583-629 | a candidate is whole exactly when its JSON is that of its sections: four named properties each, one of three states, texts within the limits without NUL or lone surrogates |
| CapturedAssessment.SourceTextExactly | supabase/functions/_shared/captured-document-operation.ts:1225-1233 | a value quotes a text exactly when the text stands inside a text of the value, or inside the printed form of a number or boolean in it |
| AssessmentIssues.IssuesExactly | supabase/functions/_shared/captured-document-operation.ts:631-1341 | what an assessment reports is exactly what is due, code by code and section by section: the faults of the candidate against its contracts, the rejected checks, findings and invalid evidence of the review, or the want of a review that answers |
| AssessmentIssues.EvidenceIsCompleteExactly | supabase/functions/_shared/captured-document-operation.ts:1236-1341 | the evidence counts as complete exactly when preparation finds nothing and the review answers with valid evidence for every section |
| CapturedAssessment.BindingHolds | supabase/functions/_shared/captured-document-operation.ts:1020-1056 | what a review is bound to holds the identity, the units with their states and digests, the sources, the evidence, the confirmations and the contract, each under its own name |
| CapturedAssessment.ReleasedCitationsAreQuoted | supabase/functions/_shared/captured-document-operation.ts:1225-1341 | every citation of a released final section is a present input of that section, and the review's verdict on that very section holds evidence that names it, with a visible quote that occurs in its accepted value |
| CapturedAssessment.ApprovedCitationsAreQuoted | supabase/functions/_shared/captured-document-operation.ts:1225-1341 | the same for any approved sections, before anything is released |
| CapturedAssessment.AssessedSourcesAreInputs | supabase/functions/_shared/captured-document-operation.ts:936-955 | a source of a plan that may be assessed says what the accepted input of its name says, so what is quoted was accepted |
| CapturedAssessment.ReviewBindsWording | supabase/functions/_shared/captured-document-operation.ts:863-1069 | a review that answers two candidates binds the same wording, identity, template, sources, evidence, confirmations and contract, unless SHA-256 collides on their encodings |
| CapturedAssessment.StringifyIsWellFormed | supabase/functions/_shared/captured-document-operation.ts:863-870 | the bound text never contains a lone surrogate, so its UTF-8 encoding loses nothing |
| CapturedAssessment.ValidateAssessment | supabase/functions/_shared/captured-document-operation.ts:1236-1341 | the passes over contracts, units and verdicts compute the assessment that the lemmas are about |
| CapturedAssessment.CollectVerdictIssues | supabase/functions/_shared/captured-document-operation.ts:1164-1223 | the pass over the verdicts pushes their issues in unit order and finds the evidence complete exactly when every verdict's evidence is valid |
| OperationStore.ServeKeeps | supabase/migrations/20260901010000_durable_background_execution.sql:215-665 | every request, from anyone, keeps the record valid, the revision growing, ended attempts as they are, and nothing after a success |
| OperationStore.ForeignersAreFenced | supabase/migrations/20260901070000_forward_expired_operation_reconciliation.sql:9-180 | while a runner still holds the lease, nobody else has changed a checkpoint |
| OperationStore.OwnRequestsKeepCheckpoints | supabase/migrations/20260907053000_ollama_credit_fallback.sql:977-1335 | a runner's own requests store no result but by completing a success, and give it no lease but by claiming |
| OperationStore.GrantsNeedCurrentRevision | supabase/migrations/20260901070000_forward_expired_operation_reconciliation.sql:9-180 | a lease is granted only at the revision the claimer has seen, and the grant changes no checkpoint |
| OperationStore.RepliesAreTrue | supabase/migrations/20260901010000_durable_background_execution.sql:215-665 | whatever a reply shows is true of the record it answers for |
| OperationStore.HappenAllIsFenced | supabase/migrations/20260831100000_dormant_captured_document_operations.sql:1982-2100 | over any sequence of foreign requests, lapses and expiries that leaves the lease with a runner, its checkpoints are unchanged |
| StoreRules.ClaimExactly | supabase/migrations/20260901070000_forward_expired_operation_reconciliation.sql:9-180 | a claim is granted if and only if it names the current revision of a record that has neither ended nor expired, does not wait for capacity and is held live by nobody else; it changes the lease and nothing else |
| StoreRules.ExpiredClaimExactly | supabase/migrations/20260901070000_forward_expired_operation_reconciliation.sql:47-108 | a claim of an expired record ends it, as cancelled if that was requested and as failed otherwise, ends what was under way without a result, and frees it |
| StoreRules.LeaseIsLostExactly | supabase/migrations/20260901070000_forward_expired_operation_reconciliation.sql:9-180 | someone else's request takes a live lease away exactly when it is a claim at the current revision of an expired record |
| StoreRules.LeaseExcludes | supabase/migrations/20260901010000_durable_background_execution.sql:215-665 | mutual exclusion over any sequence of foreign requests: as long as the lease does not lapse and the record does not expire, its holder finds status, attempts and lease as it left them, and at most one request to cancel |
| StoreRules.LapsedLeaseExactly | supabase/migrations/20260831100000_dormant_captured_document_operations.sql:2438-2505 | a lapsed lease lets anyone claim, but lets no work through and nobody else cancel |
| StoreRules.StepsAreOrderly | supabase/migrations/20260901093000_openai_capacity_leases.sql:884-1156 | every request, on any record: one step of the revision for what changes, statuses only up the ladder, whatever ends the record leaves it free with nothing under way, a request to cancel stays, and an expired record only ends |
| StoreRules.StaleChangesNothing | supabase/migrations/20260831100000_dormant_captured_document_operations.sql:1982-2100 | a request that names another revision than the current one changes nothing |
| StoreRules.EndedIsFrozen | supabase/migrations/20260901070000_forward_expired_operation_reconciliation.sql:41-45 | a record that has ended and is free stays exactly as it is |
| StoreRules.RecordExactly | supabase/migrations/20260907053000_ollama_credit_fallback.sql:977-1335 | an attempt is added exactly for the holder of a live lease at the current revision, in the status of its stage, while none is under way and none has succeeded; the one under way is only named again |
| StoreRules.CompleteExactly | supabase/migrations/20260901010000_durable_background_execution.sql:295-392 | a result is written exactly by the holder of a live lease for the attempt it names, in the status of its stage; the same result is acknowledged again and another one refused |
| StoreRules.ReconcileExactly | supabase/migrations/20260901010000_durable_background_execution.sql:394-510 | reconciling ends the one attempt under way, and only that, for the holder of a live lease |
| StoreRules.AdvanceExactly | supabase/migrations/20260831100000_dormant_captured_document_operations.sql:1982-2100 | an advance is made exactly by the holder of a live lease at the current revision along the transition table, an expired record only to failure, and gives the lease back unless work goes on |
| StoreRules.DeferExactly | supabase/migrations/20260901093000_openai_capacity_leases.sql:920-1026 | a wait for capacity is entered exactly from the status of its stage by the holder of a live lease, uncancelled and unexpired; it frees the record and remembers the stage |
| StoreRules.ResumeExactly | supabase/migrations/20260901093000_openai_capacity_leases.sql:1028-1156 | a waiting record that is neither cancelled nor expired resumes its own stage with a new lease once capacity is there, and is deferred unchanged before |
| StoreRules.FinalizeExactly | supabase/migrations/20260907053000_ollama_credit_fallback.sql:1647-2050 | a document is finalised exactly once, by the holder of a live lease at the current revision, unmoved, uncancelled and with a result stored; the same sections are acknowledged again |
| StoreRules.RenewExactly | supabase/migrations/20260901010000_durable_background_execution.sql:215-293 | a renewal is granted to the holder of a live lease until the record ends, and shows whether a cancellation was requested |
| StoreRules.CancelExactly | supabase/migrations/20260831100000_dormant_captured_document_operations.sql:2438-2505 | a cancellation by a runner ends the record exactly when nobody else holds it, lapsed or not, and nothing is under way |
| StoreRules.OwnerCancelsExactly | supabase/migrations/20260901010000_durable_background_execution.sql:512-640 | a request of the owner cancels at once where nobody is at work, and is an intent where someone is |
| CapturedRunner.Lifetime | supabase/functions/_shared/captured-operation-runner.ts:957-1740 | over any number of runs that may end or die anywhere, with lost replies, foreign requests and arbitrary provider answers: every request that arrives is safe, and the records they found follow one another |
| CapturedRunner.ExactLifetime | supabase/functions/_shared/captured-operation-runner.ts:957-1740 | the exact wording over any number of runs that may end or die anywhere: every finalisation is releasable, approved by the stored review, quoted and uncancelled, and all of them carry the same sections |
| CapturedRunner.ThreeRuns | supabase/functions/_shared/captured-operation-runner.ts:957-1740 | with nothing stored, nobody else at the record, no call lost and providers that succeed, three runs are enough whatever the replies show: the operation ends by the assessment of the candidate that the first run generated, with the review of the first run if the reply to generation showed the checkpoint, of the second otherwise |
| CapturedRunner.FinalisationIsSound | supabase/functions/_shared/captured-operation-runner.ts:1659-1736 | a finalising request that arrives carries releasable sections in contract order with none blocked, approved by the stored review, whose evidence quotes every citation from its accepted source, and the last reply before it carried no cancellation |
| CapturedRunner.FinalisationsAgree | supabase/functions/_shared/captured-operation-runner.ts:1357-1736 | all finalising requests of all runs carry the same sections: restarts cannot change the outcome |
| CapturedRunner.LeasedRequestsNeverRedispatch | supabase/functions/_shared/captured-operation-runner.ts:1357-1657 | no leased request starts an attempt for a stage with a stored checkpoint |
| CapturedRunner.CheckpointsEndDispatch | supabase/functions/_shared/captured-operation-runner.ts:1357-1657 | once a stage has a checkpoint, no later request of any run that holds the lease dispatches it |
| CapturedRunner.ReleasedStays | supabase/functions/_shared/captured-operation-runner.ts:1357-1736 | what two checkpoints release stays released in every later record |
| CapturedRunner.Runner.CompleteAttempt | supabase/functions/_shared/captured-operation-runner.ts:1167-1278 | for every pattern of lost replies, completion returns normally only when exactly this result is stored, after at most two writes; if nobody else writes, it returns exactly when an acknowledgement comes back, or the stored result is read back afterwards, and shows the checkpoint only when a reply did |
| CapturedRunner.DurableSuccessIsCheckpoint | supabase/functions/_shared/captured-operation-runner.ts:1167-1278 | a success that was reported complete is the stage's checkpoint, up to the order of object properties |
| CapturedRunner.Runner.ClaimLease | supabase/functions/_shared/captured-operation-runner.ts:982-1033 | the first lease is granted only if what the run has not seen is not there, so an absent checkpoint stays absent while the lease is held; undisturbed, it is granted |
| CapturedRunner.Runner.RenewLease | supabase/functions/_shared/captured-operation-runner.ts:982-1033 | a renewal shows whether a cancellation was requested, opens no stage that was closed and writes no result; undisturbed, it only counts up the revision |
| CapturedRunner.Runner.FinishRequestedCancellation | supabase/functions/_shared/captured-operation-runner.ts:1089-1097 | acts exactly when a cancellation has been seen, and changes nothing otherwise; undisturbed, it ends the operation as cancelled with nothing under way and every result kept |
| CapturedRunner.Runner.CallProvider | supabase/functions/_shared/captured-operation-runner.ts:1099-1279 | for every script of provider attempts, only this stage may gain a checkpoint; if nobody else writes, whether the output comes back is decided by the calls of the schedule alone, and with no call lost it always does |
| CapturedRunner.Runner.RunStage | supabase/functions/_shared/captured-operation-runner.ts:1403-1500 | a stage counts as done only with a stored structured checkpoint, and no other stage gains one; if nobody else writes, a succeeding script finishes its stage in this run exactly when every earlier completion is acknowledged and the last one shows the checkpoint or is read back; with no call lost, exactly when the last reply is full, and exactly its output is stored either way |
| CapturedRunner.Runner.EnsureGenerated | supabase/functions/_shared/captured-operation-runner.ts:1357-1500 | what is returned is the stored checkpoint, and an absent review stays absent while the lease is held; undisturbed, a stored generation is taken over without a new attempt, and from nothing stored a succeeding provider leaves exactly its output, whether or not this run sees it |
| CapturedRunner.Runner.DispatchReview | supabase/functions/_shared/captured-operation-runner.ts:1544-1657 | a review that comes back is the stored checkpoint; undisturbed, the provider's review is stored exactly, and this run goes on exactly when the last reply showed it |
| CapturedRunner.Runner.EnsureReviewed | supabase/functions/_shared/captured-operation-runner.ts:1503-1657 | a stored review is used without any call, and the assessment is that of the two checkpoints; a candidate that draws issues is not sent for review; undisturbed, any other one ends with exactly the provider's review stored, whether or not this run sees it |
| CapturedRunner.Runner.DeferForCapacity | supabase/functions/_shared/captured-operation-runner.ts:1281-1318 | undisturbed, the operation waits for capacity at this stage, without a lease and with its work as it was |
| CapturedRunner.Runner.AdvanceTo | supabase/functions/_shared/captured-operation-runner.ts:730-754 | closed stages stay closed and attempts only grow; undisturbed, every allowed status is reached with the stored work as it was, keeping the lease in working statuses |
| CapturedRunner.Runner.EndAfterError | supabase/functions/_shared/captured-operation-runner.ts:1430-1500 | undisturbed, the run ends as the kind of the provider error demands: cancelled, waiting for capacity, unchanged until the result is confirmed, or failed for good or for now with nothing under way; a requested cancellation comes first |
| CapturedRunner.Runner.Persist | supabase/functions/_shared/captured-operation-runner.ts:1689-1736 | undisturbed, released sections are finalised as they are: the record ends ready for review with exactly these sections and no new attempt |
| CapturedRunner.Runner.Run | supabase/functions/_shared/captured-operation-runner.ts:957-1740 | one run: what it sends is safe in every environment; in one that lets every call through it ends by the assessment of two stored checkpoints; with only the generation stored it stores exactly the provider's review, and from nothing stored exactly the provider's candidate, and goes on from there in the same run exactly when the last reply of the stage showed the checkpoint; a requested cancellation ends it, and an ended record stays as it is; on a plan with blocked sections it asks the owner for clarification from the accepted status and otherwise leaves status and work as they were, and in no environment adds an attempt, a result or a final document |
| CapturedRunner.Runner.Proceed | supabase/functions/_shared/captured-operation-runner.ts:1320-1740 | the same for a run that already holds the lease; on a blocked plan it ends awaiting clarification with the lease free and the work as it was, or stays where the table has no such move |
| CapturedRunner.Runner.AfterRefusedFinal | supabase/functions/_shared/captured-operation-runner.ts:1726-1738 | a final refused because a cancellation was requested meanwhile is followed by that cancellation; after any other refusal the record is left alone |
| CapturedRunner.DrawsIssuesExactly | supabase/functions/_shared/captured-operation-runner.ts:1503-1530 | a candidate is kept from review exactly when it is not whole or some section of it is not releasable |
| CapturedRunner.FinishesExactly | supabase/functions/_shared/captured-operation-runner.ts:1099-1426 | where no call is lost, a stage finishes within the run exactly when the reply to its last completion shows the whole record |
| CapturedRunner.MergeIsView | supabase/functions/_shared/captured-operation-runner.ts:263-321 | taking over the reply to a served request leaves the run with what it had seen and what that reply shows: no checkpoint at all unless the request is an acceptance or the reply is full |
| TerminalAttempts.TrackTerminalAttempt | supabase/functions/_shared/cost-tracker.ts:705-761 | a receipt vouches for facts that are stored under their key, rows never change, and at most two writes are sent; the first clear answer decides, a definite error ends it at once, and only when both answers stay unclear does the verification read decide |
| TerminalAttempts.ReceiptsStayTrue | supabase/functions/_shared/cost-tracker.ts:705-761 | whatever others write later, what a receipt vouches for stays |
| DependencyCycle.FindDependencyCycle | packages/shared/src/document-ledger.ts:584-621 | a cycle is returned exactly when there is one: the path is closed, real and simple but for its ends, and otherwise the finish order puts every dependency first; it ends on every graph, with self-loops, repeated and undeclared keys |
| DependencyCycle.GraphExactly | packages/shared/src/document-ledger.ts:584-590 | the searched graph has the declared keys, and a key that is declared twice depends on what its last declaration says |
| DependencyCycle.FinishOrderRulesOutCycles | packages/shared/src/document-ledger.ts:584-621 | an order in which every dependency comes first leaves no closed path |
| DependencyCycle.CycleFinder.Visit | packages/shared/src/document-ledger.ts:588-613 | a visit finishes a section after its dependencies or returns a closed path, and keeps the active sections equal to the current path |
| XmlText.DecodeText | supabase/functions/_shared/bounded-xml.ts:78-116 | the loop over references computes the decoded text that `XmlReferences.DecodeExactly` describes, and its limit on decoded characters is never reached within the limit on input |
| XmlText.ExpandIsNoLonger | supabase/functions/_shared/bounded-xml.ts:78-116 | decoded text is never longer than its source |
| XmlText.DecodeEscaped | supabase/functions/_shared/bounded-xml.ts:78-116 | decoding an escaped text returns it |
| XmlReferences.DecodeExactly | supabase/functions/_shared/bounded-xml.ts:78-116 | a text decodes to another if and only if it holds only XML characters and reads as the other, unit by unit and reference by reference, where a reference is one of the five names or a number in decimal or hexadecimal figures that writes an XML character, at most sixteen units long |
| XmlReferences.EntityExactly | supabase/functions/_shared/bounded-xml.ts:87-110 | a reference decodes to a text exactly when it is one of the five names with its character, or a number sign with a decimal or hexadecimal writing of an XML character whose code units the text is |
| XmlReferences.WritingsDecode | supabase/functions/_shared/bounded-xml.ts:98-108 | every decimal and hexadecimal writing of an XML character that fits the limit, in either case and with leading zeros, decodes to the code units whose scalar value it is |
| XmlReferences.NormaliseExactly | supabase/functions/_shared/bounded-xml.ts:74-76 | every line ending becomes one line feed and nothing else changes |
| XmlReferences.ValueExactly | supabase/functions/_shared/bounded-xml.ts:189-197 | an attribute value is what its literal reads as, with line endings unified and tabs and line feeds made spaces before any reference is read |
| XmlReferences.AttributesExactly | supabase/functions/_shared/bounded-xml.ts:161-200 | every attribute that was written is reported under its name with that value |
| XmlTag.TagEnd | supabase/functions/_shared/bounded-xml.ts:118-132 | the first closing bracket outside quotation marks is found, and none is reported only if it lies beyond the limit or is missing |
| XmlTag.ParseStartTag | supabase/functions/_shared/bounded-xml.ts:134-203 | reads exactly the sources that are the writing of a tag within the limits: what was read writes back to the source, and every tag that writes to the source is what was read |
| XmlTag.ReadAttribute | supabase/functions/_shared/bounded-xml.ts:161-200 | one attribute, if and only if one stands here whose name is new |
| XmlTag.ParseEndTag | supabase/functions/_shared/bounded-xml.ts:303-308 | a slash, a name and white space, if and only if the source is that |
| BoundedXml.ScanBoundedXml | supabase/functions/_shared/bounded-xml.ts:210-324 | accepts exactly the documents: tokens that tile the input, one name-matched tree at most 128 deep, only white space and no CDATA outside it, within the token budget |
| BoundedXml.CutMarkup | supabase/functions/_shared/bounded-xml.ts:259-323 | the one token that can start at an opening bracket, or none if there is none |
| BoundedXml.CutRun | supabase/functions/_shared/bounded-xml.ts:242-258 | the one run of character data that can stand before the next markup, or none |
| BoundedXml.Scanner.ScanElement | supabase/functions/_shared/bounded-xml.ts:309-321 | an element is taken exactly when it is no second root and not too deep |
| XmlTree.EventsAreOneTree | supabase/functions/_shared/bounded-xml.ts:210-324 | the events of a document are the event list of exactly one element tree, at most 128 deep, whose self-closing elements have no children, with only texts before and after it |
| XmlTree.NestsExactly | supabase/functions/_shared/bounded-xml.ts:299-321 | a list of events passes the scanner's stack if and only if it is the event list of one tree at most 128 deep with only texts around it |
| XmlTree.OneTreeIsUnique | supabase/functions/_shared/bounded-xml.ts:299-321 | two such trees with the same event list are equal |
| BoundedXml.EventsAreOrdered | supabase/functions/_shared/bounded-xml.ts:210-324 | the source ranges of the events are ordered and disjoint |
| BoundedXml.EventsStandInTokens | supabase/functions/_shared/bounded-xml.ts:242-323 | every event carries the range of its own token, CDATA without its delimiters, and the end of a self-closing element stands behind it |
| BoundedXml.TilingsAgree | supabase/functions/_shared/bounded-xml.ts:210-324 | two tilings of one source have the same boundaries and kinds of tokens |
| BoundedXml.DepthIsBounded | supabase/functions/_shared/bounded-xml.ts:309-321 | at no event of a document are more than 128 elements open or is there a second root |
| BoundedXml.DecodedFits | supabase/functions/_shared/bounded-xml.ts:226-245 | decoded characters never exceed the source, so the limit of 16 Mi is implied by the limit of 8 Mi on the input |
| BoundedXml.OutsideIsBlank | supabase/functions/_shared/bounded-xml.ts:242-298 | outside the root there is only white space as it was written, and no CDATA |
| BoundedRtf.ScanBoundedRtf | supabase/functions/_shared/bounded-rtf.ts:85-222 | accepts exactly the inputs that have a decomposition, and returns it: tokens tile from the first brace to the matching last one, groups balance within 64 levels, only white space follows, within the token budget |
| BoundedRtf.DocumentIsUnique | supabase/functions/_shared/bounded-rtf.ts:85-222 | the decomposition of an input is unique |
| BoundedRtf.TokensAgree | supabase/functions/_shared/bounded-rtf.ts:112-213 | where a token starts, the bytes decide what it is |
| BoundedRtf.CutControl | supabase/functions/_shared/bounded-rtf.ts:131-180 | the control word or binary payload that stands here, or none if there is none |
| BoundedRtf.ParametersAreInRange | supabase/functions/_shared/bounded-rtf.ts:138-170 | parameters are signed 32-bit numbers and a payload lies inside the input |
| BoundedRtf.ParameterExactly | supabase/functions/_shared/bounded-rtf.ts:138-170 | a parameter is the signed 32-bit number that its one to ten decimal digits write after an optional minus |
| BoundedRtf.HexExactly | supabase/functions/_shared/bounded-rtf.ts:181-184 | a hexadecimal escape stands for the byte that its two figures write |
| BoundedRtf.OpensFirst | supabase/functions/_shared/bounded-rtf.ts:120-128 | the first token opens the outermost group, so no group is closed that is not open |
| Crc32.ComputeCrc | supabase/functions/_shared/brand-logo-image.ts:69-75 | for every byte range the table-driven register equals the bit-serial division by the reflected polynomial, with the initial and final inversion |
| Crc32.BuildTable | supabase/functions/_shared/brand-logo-image.ts:57-67 | every entry of the table is the eight shifts of its index |
| Crc32.OneByteByTable | supabase/functions/_shared/brand-logo-image.ts:69-75 | eight shifts of a register are the table entry of its low byte combined with the rest moved down |
| Crc32.FeedIsShift | supabase/functions/_shared/brand-logo-image.ts:69-75 | feeding data bits one by one is combining them with the register first and then shifting |
| Crc32.PolynomialIsGenerator | supabase/functions/_shared/brand-logo-image.ts:57-67 | the constant of the table is the generator polynomial of PNG's annex D with its bits reversed, term by term |
| PngImage.ValidatePng | supabase/functions/_shared/brand-logo-image.ts:88-132 | accepts exactly the files that are a signature followed by checksummed chunks to the end: the header first and once, at least one data chunk, the end last, no chunk that is not allowed, sizes within the limits |
| PngImage.ChunksAreUnique | supabase/functions/_shared/brand-logo-image.ts:88-132 | the chunks of a file are unique |
| PngImage.PlacementIsExact | supabase/functions/_shared/brand-logo-image.ts:88-132 | a chunk with correct bounds and checksum is refused exactly when it is out of place |
| PngImage.Uint32Exactly | supabase/functions/_shared/brand-logo-image.ts:37-45 | four bytes are read as the 32-bit number that they write, most significant byte first |
| Placeholders.ParseReturnsWritten | supabase/functions/_shared/document-placeholder-policy.ts:255-290 | on brace-free text interleaved with created tokens the parser returns exactly those tokens with their offsets |
| Placeholders.ParseTokens | supabase/functions/_shared/document-placeholder-policy.ts:274-290 | the `exec` loop computes the scan that the lemma is about |
| Placeholders.CreatedIsDeclared | supabase/functions/_shared/document-placeholder-policy.ts:255-272 | whatever is created is such a token |
| Placeholders.RestoreUndoesMask | supabase/functions/_shared/document-placeholder-policy.ts:292-311 | restoring what was masked is the identity on content without the mask character |
| PlaceholderRules.MaskExactly | supabase/functions/_shared/document-placeholder-policy.ts:292-311 | on any content masking preserves exactly the tokens that occur, in order, puts their numbers between mask characters in their place, and changes nothing else |
| PlaceholderRules.ScanExactly | supabase/functions/_shared/document-placeholder-policy.ts:10-11 | parsing any content, structured or not, returns exactly the tokens that the pattern spells in it, each once, in order and without overlap |
| PlaceholderRules.CreateExactly | supabase/functions/_shared/document-placeholder-policy.ts:255-272 | a token is created exactly of a trimmed name and a trimmed label that is neither blank nor holds a brace, and is those two in the pattern |
| PlaceholderRules.TrimExactly | supabase/functions/_shared/document-placeholder-policy.ts:255-272 | `trim` returns exactly the part between leading and trailing white space |
| PlaceholderRules.PrefixReads | supabase/functions/_shared/document-placeholder-policy.ts:10-11 | the fixed start of every token |
| PlaceholderRules.FindExactly | supabase/functions/_shared/document-placeholder-policy.ts:365-372 | the selected placeholder is the first one with the identifier |
| PlaceholderRules.SelectionGrows | supabase/functions/_shared/document-placeholder-policy.ts:374-386 | targets are the selected placeholder and those that share its declared key, the others remain open, both in order |
| PlaceholderRules.IdsExactly | supabase/functions/_shared/document-placeholder-policy.ts:382-383 | the resolved identifiers are those of the targets, each once, in the order of their first target |
| Placeholders.ResolvePlaceholders | supabase/functions/_shared/document-placeholder-policy.ts:352-399 | the loops over targets and sections compute the resolution that the lemmas are about, or fail exactly when the answer is blank, the placeholder unknown or a target has no token |
| Placeholders.ResolutionIsSubstitution | supabase/functions/_shared/document-placeholder-policy.ts:352-399 | resolution replaces every occurrence of the targeted tokens and leaves all other text and tokens verbatim |
| Placeholders.ResolutionsCommute | supabase/functions/_shared/document-placeholder-policy.ts:352-399 | where neither resolution resolves the other placeholder too, both orders succeed and leave the same placeholders open, and the contents are equal if and only if the trimmed answers are, or no token in the text belongs to targets of both |
| Placeholders.SecondSucceedsExactly | supabase/functions/_shared/document-placeholder-policy.ts:352-399 | with distinct identifiers, a second resolution that would have succeeded alone still succeeds if and only if the first has not resolved its placeholder |
| Placeholders.FirstAnswerStays | supabase/functions/_shared/document-placeholder-policy.ts:352-399 | after two resolutions a token shows the answer of the first one that targets it |
| AuditBinding.FramedIsInjective | supabase/functions/_shared/document-audit-binding.ts:76-95 | equal framed bytes come from equal domains, counts and value lists, for all exact text |
| AuditBinding.FramedAreFrames | supabase/functions/_shared/document-audit-binding.ts:76-95 | the committed bytes are one frame after the other, of the domain, of the decimal count and of every value: a decimal byte count, a colon, and that many bytes which write the text in UTF-8 |
| AuditBinding.FramedBytes | supabase/functions/_shared/document-audit-binding.ts:76-95 | the buffer filled at a moving offset is the framed encoding, refused exactly when a value is not exact |
| AuditBinding.TargetCommitmentIsInjective | supabase/functions/_shared/document-audit-binding.ts:126-147 | the committed bytes of targets determine every key, label and content, in order |
| AuditBinding.AssertExactText | supabase/functions/_shared/document-audit-binding.ts:45-59 | passes exactly the text without NUL and lone surrogates |
| AuditBinding.ValidateSources | supabase/functions/_shared/document-audit-binding.ts:97-117 | the budget loop with its early exit accepts exactly five exact texts of at most 1,048,576 bytes of UTF-8 in all |
| AuditRoster.ValidateUnits | supabase/functions/_shared/document-audit-binding.ts:264-335 | the loop over the unit rows accepts exactly the rosters: key#1 to key#k for every section, in section order |
| AuditRoster.RosterCharacterisation | supabase/functions/_shared/document-audit-binding.ts:264-335 | the row-by-row check characterises the rosters |
| AuditRoster.UnitIdsAreDistinct | supabase/functions/_shared/document-audit-binding.ts:264-335 | no two units of an accepted binding share an identifier |
| AuditRoster.PipelineUnitsAreRoster | supabase/functions/_shared/document-pipeline.ts:1335-1358 | the units that the pipeline numbers are a roster of their sections |
| AuditRoster.PreparedRosterIsAccepted | supabase/functions/_shared/document-pipeline.ts:1335-1358 | within the length limit on identifiers, what the pipeline prepares is accepted |
| AuditRoster.ValidateBinding | supabase/functions/_shared/document-audit-binding.ts:209-335 | the checks of versions, identifiers, digests, sections, units and sources accept exactly the bindings whose every field is in its limits |
| AuditRoster.BindingFitsCeiling | supabase/functions/_shared/document-audit-binding.ts:209-335 | whatever the field and row checks accept serialises to at most 4,194,304 bytes of UTF-8, so the final ceiling never rejects |
| AuditRoster.VariableTextBound | supabase/functions/_shared/document-audit-binding.ts:209-335 | the texts that vary freely in an accepted binding take at most 2,150,400 bytes once escaped and encoded |
| JsonBounds.ValidateJsonStructure | supabase/functions/_shared/auth-guard.ts:433-478 | accepts a value if and only if its nodes, fields, items, depth and longest field name are within the limits |
| JsonBounds.EveryOrderDecides | supabase/functions/_shared/auth-guard.ts:433-478 | any order of the walk decides the same: it stops only on a value beyond a limit, and if it empties the stack the value is within them |
| JsonBounds.WalkStep | supabase/functions/_shared/auth-guard.ts:433-478 | one step, whichever entry of the stack it takes, keeps the sum of what has been counted and what is left, and leaves less to count |
| PlanTimes.StringOrderIsChronological | packages/shared/src/manual-plans.ts:134-151 | for accepted timestamps string order is the order of microseconds on the proleptic Gregorian calendar |
| PlanTimes.TimestampsAreDistinct | packages/shared/src/manual-plans.ts:134-151 | different accepted timestamps denote different microseconds |
| PlanTimes.BeforeIsMicros | packages/shared/src/manual-plans.ts:134-151 | comparing field by field is comparing microseconds, across month ends and leap years |
| PlanCalendar.TimestampsExactly | packages/shared/src/manual-plans.ts:134-151 | the accepted timestamps are exactly the printed instants of the years 1 to 9999 |
| PlanCalendar.DaysBeforeYearExactly | packages/shared/src/manual-plans.ts:134-144 | the days before a year are those of the Gregorian rule: a leap day every fourth year, not every hundredth, but every four hundredth |
| PlanCalendar.DaysInExactly | packages/shared/src/manual-plans.ts:134-144 | the lengths of the twelve months |
| PlanTimes.ParsePlanList | packages/shared/src/manual-plans.ts:265-286 | the loop with its three sets of identifiers accepts exactly the lists within the page limit whose rows are valid and fit after the rows before them |
| PlanTimes.PlanListsExactly | packages/shared/src/manual-plans.ts:265-286 | the rows fit one after the other exactly when every row is valid and any two of them differ in every identifier and stand in order |
| PlanTimes.SortedThroughout | packages/shared/src/manual-plans.ts:265-286 | an accepted list is sorted throughout, by descending time and then by ascending artifact |
| PlanTimes.ChainsAdvance | packages/shared/src/manual-plans.ts:288-332 | along a chain of saves, each expecting what the one before committed, revisions are consecutive, times strictly increase and the plan stays the same |
| PlanTimes.ReceiptsAreOrdered | packages/shared/src/manual-plans.ts:297-332 | what a client is shown is never older than what it saved, nor than the plan itself |

## Left out

- OutputSchema: keywords outside `type`, `properties`, `required`, boolean `additionalProperties`, `items`, `anyOf`, `uniqueItems`, `$ref` and `$defs` have an arbitrary meaning; a property called `__proto__` is not modelled.
- JsNumbers.PrintNumberIsInjective: the shortest round-trip digits of a double are given, not computed.
- CapturedAssessment.ReviewBindsWording: SHA-256 is an arbitrary function; a collision on the two encodings is the stated alternative.
- CapturedAssessment: the conditional-review pipeline and the replacement-document output are not modelled, only the exact-wording pipeline.
- CapturedRunner.Runner.Run: the first acceptance of an operation, accept-only requests, the shape of HTTP answers, questions to the owner and the credit-fallback execution policy are not modelled; a run starts from an accepted operation.
- CapturedRunner.Lifetime: runs follow one another, and other runners are requests between the calls of one run; a request of a run that arrives after a later request of the same run is not modelled.
- OperationStore: times, budgets, routes and identities inside the SQL functions are events or arbitrary refusals; a lease token is the name of its holder.
- DocumentPipeline.RunDocumentPipeline: progress callbacks, checkpoints, the brief and the section plan are not modelled; the readiness branch of writeSection that no call can take is left out. mergeFinalPlaceholders and the fallback report only describe a finished run.
- ConcurrentMap.MapWithConcurrency: a call that rejects is not modelled.
- TerminalAttempts.TrackTerminalAttempt: the fields of a receipt and the validation of facts are opaque.
- BoundedRtf.ScanBoundedRtf: the cancellation and deadline checks and the depth stored in a token are not modelled.
- BoundedXml.ScanBoundedXml: the regular expression of the XML declaration is an arbitrary predicate; which of several reasons for a refusal is reported is not stated.
- PngImage.ValidatePng: which of several reasons for a refusal is reported is not stated; JPEG and WebP are not modelled.
- Placeholders: counting open placeholders, the export decision and automatic fallbacks are not modelled.
- AuditRoster.ValidateBinding: the stage that a caller expects is no parameter; exact object shapes and property descriptors are given by the record type.
- PlanTimes: items, titles and identifiers are one arbitrary flag of a row or compared as one value.
- Object descriptors, proxies, freezing and cloning: values in the model cannot change.
- Prompts, template data and profile catalogues are content, not logic.
