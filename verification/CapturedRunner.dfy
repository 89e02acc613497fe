/**
 captured-operation-runner.ts, lines 730-763 and 957-1725, on the exact-wording
 pipeline: one run of a captured operation against its durable record.

 The environment is a schedule: before each call it lets anything happen to the
 record, and it decides whether the call arrives, whether its reply is lost, whether
 the transport throws and whether the run dies there. The provider follows an
 arbitrary script of attempts, as provider-router.ts drives them: it ends after a
 success, and when the attempt lifecycle throws.

 In every environment, what runs send is safe (`IsSafe`). When nobody else touches the
 record, a provider stage ends in a run that goes on exactly in the schedules that
 `Finishes` describes: the reply to the completion shows the checkpoint, or both
 acknowledgements are lost and the re-read is answered. The database function that
 completes an attempt shows no checkpoint, so a run whose calls all get through stores
 what the provider returned and leaves the rest to the next run.

 In an environment that lets every call through, whatever its replies show, a run gets
 that far: from nothing stored it leaves the candidate, from a candidate the review,
 from both it ends by their assessment alone (`EndsGenerated`, `EndsReviewed`,
 `IsConcluded`), so three runs are enough (`ThreeRuns`). A requested cancellation is
 carried out (`IsCancelled`), and an error of the provider ends the run as its kind
 demands (`EndsAs`).
 */
module CapturedRunner {
  import opened Texts
  import opened JsonText
  import opened C = CanonicalJson
  import opened CapturedPlan
  import opened CapturedAssessment
  import opened OperationStore

  // ----- the environment -----

  datatype Ending = Answered | Failed | Threw | Died

  /** What the environment does with one call. */
  datatype Turn = Turn(before: seq<Event>, arrives: bool, ending: Ending, full: bool)

  datatype Outcome = Answer(reply: Reply) | Error(code: Code) | Thrown | Dead

  function OutcomeOf(t: Turn, row: Row, q: Request): Outcome {
    match t.ending
    case Answered =>
      if !t.arrives then Error(OtherCode)
      else (match Serve(row, q)
            case Rejected(code) => Error(code)
            case Served(after, reply) => Answer(if t.full then Fill(reply, after) else reply))
    case Failed => Error(OtherCode)
    case Threw => Thrown
    case Died => Dead
  }

  /** A request reaching the database: who sent it, the record it found, and the last reply its sender had. */
  datatype Arrival = Arrival(sender: Owner, q: Request, row: Row, heard: Shown<Reply>)

  /**
   What the accepted snapshot fixes for every run of the operation: the plan, whether a
   candidate draws issues before any review, and how a candidate and a review are
   assessed. The runner works for every such assessment; `ExecutionOf` is the one for
   the exact wording.
   */
  datatype Execution = Execution(plan: Plan, drawsIssues: Json -> bool, assess: (Json, Json) -> Assessment)

  /** Without a review nothing passes. */
  ghost predicate NeedsReview(execution: Execution) {
    forall candidate :: !Passed(execution.assess(candidate, Null))
  }

  /** The assessment of the exact wording, for an accepted plan and identity. */
  function ExecutionOf(judges: Judges, plan: Plan, identity: Json): Execution {
    Execution(
      plan,
      (candidate: Json) => PrepareIssues(judges, plan, ReadCandidate(plan.template, candidate)) != [],
      (candidate: Json, review: Json) => Assess(judges, plan, candidate, identity, review))
  }

  /** A candidate draws issues exactly when it is not whole or some section is not releasable. */
  lemma {:induction false} DrawsIssuesExactly(judges: Judges, plan: Plan, identity: Json, candidate: Json)
    requires NoRepeats(SectionKeys(plan.template.sections))
    ensures var c := ReadCandidate(plan.template, candidate);
            ExecutionOf(judges, plan, identity).drawsIssues(candidate) <==> !(IsWhole(c) && AllReleasable(judges, plan, SectionsOf(c)))
  {
    hide ReadCandidate, IsWhole, AllReleasable, SectionsOf, PrepareIssues, SectionKeys;
    PreparationExactly(judges, plan, candidate);
  }

  lemma {:induction false} ExactWordingNeedsReview(judges: Judges, plan: Plan, identity: Json)
    ensures NeedsReview(ExecutionOf(judges, plan, identity))
  {
    forall candidate ensures !Passed(Assess(judges, plan, candidate, identity, Null)) {
      WithoutReview(judges, plan, candidate, identity);
    }
  }

  lemma {:induction false} WithoutReview(judges: Judges, plan: Plan, candidate: Json, identity: Json)
    ensures !Passed(Assess(judges, plan, candidate, identity, Null))
  {
  }

  /** The sections are what the two durable checkpoints yield under the accepted plan, and they passed. */
  ghost predicate IsReleased(execution: Execution, row: Row, sections: seq<SectionOutput>) {
    && execution.plan.blocked == []
    && Checkpoint(row, Generation).Present? && Checkpoint(row, Review).Present?
    && var a := execution.assess(Checkpoint(row, Generation).value, Checkpoint(row, Review).value);
       Passed(a) && a.sections == sections
  }

  ghost predicate IsSafe(execution: Execution, a: Arrival) {
    match a.q
    case Record(owner, _, stage, _) => HeldBy(a.row, owner) ==> Checkpoint(a.row, stage).Absent?
    case Finalize(_, _, sections) =>
      && a.heard.Shown? && a.heard.value.cancel == Shown(false)
      && IsReleased(execution, a.row, sections)
    case _ => true
  }

  ghost predicate AllSafe(execution: Execution, log: seq<Arrival>) {
    forall i :: 0 <= i < |log| ==> IsSafe(execution, log[i])
  }

  /** The records that requests found follow one another, up to the record as it is. */
  predicate InOrder(log: seq<Arrival>, row: Row) {
    && (forall i :: 0 <= i < |log| ==> Follows(log[i].row, row))
    && (forall i, j :: 0 <= i < j < |log| ==> Follows(log[i].row, log[j].row))
  }

  lemma {:induction false} StaysInOrder(log: seq<Arrival>, row: Row, after: Row)
    requires InOrder(log, row) && Follows(row, after)
    ensures InOrder(log, after)
  {
    forall i | 0 <= i < |log| ensures Follows(log[i].row, after) {
      FollowsIsTransitive(log[i].row, row, after);
    }
  }

  lemma {:induction false} AppendsInOrder(log: seq<Arrival>, a: Arrival, after: Row)
    requires InOrder(log, a.row) && Follows(a.row, after)
    ensures InOrder(log + [a], after)
  {
    StaysInOrder(log, a.row, after);
  }

  /** The requests that start, end or finalise work. */
  predicate IsWork(q: Request) {
    q.Record? || q.Complete? || q.Finalize?
  }

  /** Whatever arrived since then starts, ends and finalises nothing. */
  ghost predicate AddsNoWork(before: seq<Arrival>, after: seq<Arrival>) {
    before <= after && forall i :: |before| <= i < |after| ==> !IsWork(after[i].q)
  }

  lemma {:induction false} AppendsNoWork(log: seq<Arrival>, a: Arrival)
    ensures !IsWork(a.q) ==> AddsNoWork(log, log + [a])
  {
  }

  lemma {:induction false} AddsNothing(log: seq<Arrival>)
    ensures AddsNoWork(log, log)
  {
  }

  lemma {:induction false} AddsNoWorkIsTransitive(a: seq<Arrival>, b: seq<Arrival>, c: seq<Arrival>)
    requires AddsNoWork(a, b) && AddsNoWork(b, c)
    ensures AddsNoWork(a, c)
  {
    assert forall i :: |a| <= i < |b| ==> c[i] == b[i];
  }

  lemma {:induction false} AppendsSafe(execution: Execution, log: seq<Arrival>, a: Arrival)
    requires AllSafe(execution, log) && IsSafe(execution, a)
    ensures AllSafe(execution, log + [a])
  {
    hide IsSafe;
  }

  predicate IsCompletion(q: Request) {
    q.Complete?
  }

  /** A call that arrives, and whose reply comes back. */
  predicate IsAnswered(t: Turn) {
    t.arrives && t.ending.Answered?
  }

  /** A call that ends in an error of its own, whether it arrived or not. */
  predicate IsLost(t: Turn) {
    t.ending.Failed? || (t.ending.Answered? && !t.arrives)
  }

  /** An environment that lets a call through: nothing happens before it, it arrives, and its reply comes back. */
  predicate IsCalm(t: Turn) {
    t.before == [] && IsAnswered(t)
  }

  class Database {
    const schedule: nat -> Turn
    var clock: nat
    var row: Row
    ghost var log: seq<Arrival>
    ghost var heard: Shown<Reply>
    ghost var writes: nat

    constructor (schedule: nat -> Turn, row: Row)
      ensures this.schedule == schedule && this.row == row && log == [] && clock == 0
    {
      this.schedule := schedule;
      this.row := row;
      clock := 0;
      log := [];
      heard := Hidden;
      writes := 0;
    }

    /** The record as the next call finds it. */
    ghost function Met(me: Owner): Row
      reads this
    {
      HappenAll(row, me, schedule(clock).before)
    }

    /** Nobody else touches the record; calls and replies may still be lost. */
    ghost predicate Quiet()
      reads this
    {
      forall k: nat :: clock <= k ==> schedule(k).before == []
    }

    ghost predicate Calm()
      reads this
    {
      forall k: nat :: clock <= k ==> IsCalm(schedule(k))
    }

    lemma {:induction false} FinishesInCalm(script: Script)
      requires Calm() && Succeeds(script)
      ensures Finishes(schedule, clock, |script.moves|) <==> schedule(clock + 4 * |script.moves| - 1).full
    {
      FinishesExactly(schedule, clock, |script.moves|);
    }

    lemma {:induction false} CalmIsQuiet()
      ensures Calm() ==> Quiet()
    {
    }

    /** Between two runs: the lease lapses. */
    method Lapse(me: Owner)
      modifies this
      ensures row == Happen(old(row), me, LeaseLapses)
      ensures clock == old(clock) && log == old(log) && heard == old(heard) && writes == old(writes)
    {
      row := Happen(row, me, LeaseLapses);
    }

    /** gateway.rpc */
    method Rpc(me: Owner, q: Request) returns (o: Outcome)
      modifies this
      ensures var t, met := schedule(old(clock)), old(Met(me));
        && clock == old(clock) + 1
        && row == (if t.arrives then After(met, q) else met)
        && log == old(log) + (if t.arrives then [Arrival(me, q, met, old(heard))] else [])
        && o == OutcomeOf(t, met, q)
        && heard == (if o.Answer? then Shown(o.reply) else old(heard))
        && writes == old(writes) + (if IsCompletion(q) then 1 else 0)
    {
      var t := schedule(clock);
      clock := clock + 1;
      row := HappenAll(row, me, t.before);
      o := OutcomeOf(t, row, q);
      if t.arrives {
        log := log + [Arrival(me, q, row, heard)];
        row := After(row, q);
      }
      if o.Answer? {
        heard := Shown(o.reply);
      }
      if IsCompletion(q) {
        writes := writes + 1;
      }
    }
  }

  // ----- the provider -----

  /** One attempt: its request, whether it reports back at all, and with what. */
  datatype Move = Move(request: nat, reports: bool, result: Result)

  datatype ErrorKind = ClientCancelled | CapacityWait | CompletionUnconfirmed | AttemptUnconfirmed | OtherError

  datatype ErrorInfo = ErrorInfo(kind: ErrorKind, retryable: bool)

  datatype Finish = Returns(output: Json) | Fails(info: ErrorInfo) | Dies

  datatype Script = Script(moves: seq<Move>, finish: Finish, onLifecycleError: ErrorInfo)

  datatype Provided = Output(output: Json) | Errored(info: ErrorInfo) | Lost

  // ----- the runner -----

  /** The runner's view of the operation. */
  datatype Operation = Operation(revision: nat, status: Status, cancelRequested: bool, generation: Optional, review: Optional)

  function Seen(op: Operation, stage: Stage): Optional {
    if stage == Generation then op.generation else op.review
  }

  /** `{ ...previous, ...record }`. */
  function Merge(op: Operation, reply: Reply): Operation {
    Operation(
      reply.revision,
      if reply.status.Shown? then reply.status.value else op.status,
      if reply.cancel.Shown? then reply.cancel.value else op.cancelRequested,
      if reply.generation.Shown? then reply.generation.value else op.generation,
      if reply.review.Shown? then reply.review.value else op.review)
  }

  /** The reply as the environment lets it be seen. */
  function Replied(row: Row, q: Request, full: bool): Reply
    requires Serve(row, q).Served?
  {
    if full then Fill(Serve(row, q).reply, After(row, q)) else Serve(row, q).reply
  }

  /** The view after a reply that comes from the database function, or with the whole visible record: only accepting shows checkpoints. */
  function Viewed(op: Operation, row: Row, q: Request, full: bool): Operation {
    Operation(
      row.revision,
      if q.Record? && !full then op.status else row.status,
      if full || ShowsCancellation(q) then row.cancelRequested else op.cancelRequested,
      if full || q.Accept? then Checkpoint(row, Generation) else op.generation,
      if full || q.Accept? then Checkpoint(row, Review) else op.review)
  }

  lemma {:induction false} LeaseRepliesAreViewed(row: Row, q: Request, op: Operation, full: bool)
    requires Serve(row, q).Served? && (q.Claim? || q.Resume? || q.Renew? || q.Advance? || q.Reconcile?)
    ensures Merge(op, Replied(row, q, full)) == Viewed(op, After(row, q), q, full)
  {
  }

  lemma {:induction false} OtherRepliesAreViewed(row: Row, q: Request, op: Operation, full: bool)
    requires Serve(row, q).Served? && (q.Cancel? || q.Defer? || q.Finalize? || q.OwnerCancels?)
    ensures Merge(op, Replied(row, q, full)) == Viewed(op, After(row, q), q, full)
  {
  }

  /** No reply shows a checkpoint but that of the accepting function, unless it shows the whole record. */
  lemma {:induction false} MergeIsView(row: Row, q: Request, op: Operation, full: bool)
    requires Serve(row, q).Served?
    ensures Merge(op, Replied(row, q, full)) == Viewed(op, After(row, q), q, full)
  {
    if q.Claim? || q.Resume? || q.Renew? || q.Advance? || q.Reconcile? {
      LeaseRepliesAreViewed(row, q, op, full);
    } else if q.Cancel? || q.Defer? || q.Finalize? || q.OwnerCancels? {
      OtherRepliesAreViewed(row, q, op, full);
    }
  }

  function OrNull(o: Optional): Json {
    match o case Present(v) => v case Absent => Null
  }

  /** A checkpoint that holds an object. */
  predicate IsObject(o: Optional) {
    match o case Present(Obj(_)) => true case _ => false
  }

  /** structuredCheckpoint is not null. */
  predicate IsStructured(o: Optional) {
    o.Present? && o.value.Obj?
  }

  /** A call chain's end: completed, an RPC error, another exception, or the death of the run. */
  datatype Flow = Done | Failure(code: Code) | Broken | Death

  function FlowOf(o: Outcome): Flow {
    match o
    case Answer(_) => Done
    case Error(code) => Failure(code)
    case Thrown => Broken
    case Dead => Death
  }

  /** What the runner has seen of a checkpoint is what the record holds. */
  predicate IsKnown(row: Row, op: Operation) {
    && (op.generation.Present? ==> Checkpoint(row, Generation) == op.generation)
    && (op.review.Present? ==> Checkpoint(row, Review) == op.review)
  }

  /** At the revision it has seen, the runner has seen both checkpoints as they are. */
  predicate IsCurrent(row: Row, op: Operation) {
    && op.revision <= row.revision
    && (row.revision == op.revision ==> Checkpoint(row, Generation) == op.generation && Checkpoint(row, Review) == op.review)
  }

  /** Exactly this result is stored: as this attempt, or as the stage's checkpoint. */
  predicate IsDurable(row: Row, stage: Stage, number: nat, request: nat, result: Result) {
    || (1 <= number <= |Attempts(row, stage)| && Attempts(row, stage)[number - 1] == Attempt(request, Terminal(result)))
    || (result.Succeeded? && Checkpoint(row, stage).Present? && CanonicalJson(Checkpoint(row, stage).value) == CanonicalJson(result.output))
  }

  lemma {:induction false} KnownStays(before: Row, after: Row, op: Operation)
    requires IsKnown(before, op) && Follows(before, after)
    ensures IsKnown(after, op)
  {
  }

  lemma {:induction false} CurrentStays(before: Row, after: Row, op: Operation)
    requires IsCurrent(before, op) && Follows(before, after)
    ensures IsCurrent(after, op)
  {
  }

  lemma {:induction false} CheckpointStays(before: Row, after: Row, stage: Stage)
    requires Checkpoint(before, stage).Present? && Follows(before, after)
    ensures Checkpoint(after, stage) == Checkpoint(before, stage)
  {
  }

  lemma {:induction false} MergeIsKnown(row: Row, op: Operation, reply: Reply)
    requires IsKnown(row, op) && IsTrueOf(reply, row)
    ensures IsKnown(row, Merge(op, reply))
  {
  }

  lemma {:induction false} OnlyNullIsNull(v: Json)
    ensures CanonicalJson(v) == CanonicalJson(Null) ==> v == Null
  {
    CanonicalIsStringify(v);
    CanonicalIsStringify(Null);
    if CanonicalJson(v) == CanonicalJson(Null) {
      StringifyIsInjective(SortKeys(ByCodeUnit, v), Null);
    }
  }

  lemma {:induction false} ReleasedStays(execution: Execution, before: Row, after: Row, sections: seq<SectionOutput>)
    requires IsReleased(execution, before, sections) && Follows(before, after)
    ensures IsReleased(execution, after, sections)
  {
    assert Checkpoint(after, Generation) == Checkpoint(before, Generation);
    assert Checkpoint(after, Review) == Checkpoint(before, Review);
  }

  /** The stored work of both stages, and what else the owner did, is as it was. */
  predicate SameWork(before: Row, after: Row) {
    && after.generation == before.generation && after.review == before.review
    && after.cancelRequested == before.cancelRequested && after.expired == before.expired
    && after.documentMoved == before.documentMoved && after.finality == before.finality
  }

  /** The statuses in which a run keeps its lease. */
  predicate IsWorking(status: Status) {
    status == Generating || status == Validating || status == Persisting
  }

  /** A record that a run may take over. */
  predicate MayTake(row: Row, me: Owner) {
    && row.status != AwaitingClarification && row.status != TerminalFailure && row.status != Cancelled && row.status != ReadyForReview
    && !row.expired
    && (row.lease.Held? && row.lease.live ==> row.lease.owner == me)
    && (row.status == AwaitingCapacity ==> row.capacityReady && !row.cancelRequested)
  }

  /** Nothing but the revision is different. */
  predicate IsBumped(before: Row, after: Row) {
    after == before.(revision := after.revision)
  }

  /** The status in which a run takes a record over. */
  function StatusTaken(row: Row): Status {
    if row.status == AwaitingCapacity then StatusOf(row.waitingStage) else row.status
  }

  /** A view with the revision and the status of the record. */
  predicate Agrees(op: Operation, row: Row) {
    op.revision == row.revision && op.status == row.status && (op.cancelRequested ==> row.cancelRequested)
  }

  /** A record that a run may take over and work on. */
  predicate IsClaimable(row: Row, me: Owner) {
    MayTake(row, me) && !row.cancelRequested
  }

  /** The statuses from which a run continues; any other record is only reported back. */
  predicate IsResumable(status: Status) {
    IsWorking(status) || status == Accepted || status == AwaitingCapacity || status == RetryableFailure
  }

  predicate MayAdvance(row: Row, next: Status) {
    next != Cancelled && next != ReadyForReview && OperationStore.IsAllowed(row.status, next) && (IsTerminal(next) ==> !HasPrepared(row))
  }

  /** Both checkpoints are stored, as structured outputs. */
  predicate HasBoth(row: Row) {
    IsObject(Checkpoint(row, Generation)) && IsObject(Checkpoint(row, Review))
  }

  /** The operation ended with these sections, and without another provider attempt. */
  predicate IsFinalised(before: Row, after: Row, sections: seq<SectionOutput>) {
    && after.status == ReadyForReview && after.finality == FinalSections(sections)
    && after.generation == before.generation && after.review == before.review
  }

  /** What follows from an assessment in an undisturbed run. */
  predicate IsSettled(a: Assessment, before: Row, after: Row) {
    && (Passed(a) && !before.documentMoved ==> IsFinalised(before, after, a.sections))
    && (a.Assessed? && !Passed(a) ==> after.status == TerminalFailure && SameWork(before, after))
  }

  /** How a run ends that finds both checkpoints and is not disturbed: finalised, or failed for good, by their assessment alone. */
  ghost predicate IsConcluded(execution: Execution, before: Row, after: Row)
    requires HasBoth(before)
  {
    IsSettled(
      execution.assess(Checkpoint(before, Generation).value, Checkpoint(before, Review).value),
      before, after)
  }

  lemma {:induction false} ReleaseStands(execution: Execution, before: Row, after: Row, candidate: Json, review: Json)
    requires Follows(before, after) && execution.plan.blocked == []
    requires Checkpoint(before, Generation) == Present(candidate) && Checkpoint(before, Review) == Present(review)
    requires Passed(execution.assess(candidate, review))
    ensures IsReleased(execution, after, execution.assess(candidate, review).sections)
  {
    ReleasedStays(execution, before, after, execution.assess(candidate, review).sections);
  }

  lemma {:induction false} FinalIsServed(row: Row, me: Owner, sections: seq<SectionOutput>)
    requires row.status == Persisting && LiveFor(row, me) && !row.documentMoved && !row.cancelRequested
    requires Checkpoint(row, Generation).Present? && Checkpoint(row, Review).Present?
    ensures Serve(row, Finalize(me, row.revision, sections)).Served?
    ensures IsFinalised(row, After(row, Finalize(me, row.revision, sections)), sections)
  {
  }

  lemma {:induction false} AdvanceIsServed(row: Row, me: Owner, next: Status)
    requires LiveFor(row, me) && !row.expired && MayAdvance(row, next)
    ensures Serve(row, Advance(me, row.revision, next)).Served?
    ensures var after := After(row, Advance(me, row.revision, next));
      && after.status == next && SameWork(row, after) && after.revision == row.revision + 1
      && (IsWorking(next) ==> after.lease == row.lease)
  {
  }

  /** A stage at which another attempt may start. */
  predicate MayAttempt(row: Row, stage: Stage) {
    row.status == StatusOf(stage) && !IsPrepared(Attempts(row, stage)) && Checkpoint(row, stage).Absent?
  }

  /** The attempts with the last one ended. */
  function EndedWith(attempts: seq<Attempt>, result: Result): seq<Attempt> {
    if attempts == [] then [] else attempts[|attempts| - 1 := attempts[|attempts| - 1].(progress := Terminal(result))]
  }

  /** The stage is the only thing that is different. */
  predicate SameBut(before: Row, after: Row, stage: Stage) {
    && after.status == before.status && after.lease == before.lease
    && after.cancelRequested == before.cancelRequested && after.expired == before.expired
    && after.documentMoved == before.documentMoved && after.finality == before.finality
    && (if stage == Generation then after.review == before.review else after.generation == before.generation)
  }

  /** The last attempt of the stage is under way, under this number. */
  predicate IsPending(row: Row, stage: Stage, number: nat, request: nat) {
    var attempts := Attempts(row, stage);
    row.status == StatusOf(stage) && attempts != [] && number == |attempts| && attempts[number - 1] == Attempt(request, Prepared)
  }

  /** A completion of the last attempt that may be sent: the attempt is under way, or ended with this result. */
  predicate MayComplete(row: Row, stage: Stage, number: nat, request: nat, result: Result) {
    var attempts := Attempts(row, stage);
    && row.status == StatusOf(stage) && attempts != [] && number == |attempts|
    && (attempts[number - 1] == Attempt(request, Prepared) || attempts[number - 1] == Attempt(request, Terminal(result)))
  }

  /** The last attempt ended with this result, if the result arrived; nothing else changed. */
  predicate IsWithin(before: Row, after: Row, stage: Stage, result: Result, arrived: bool) {
    && SameBut(before, after, stage)
    && Attempts(after, stage) == if arrived then EndedWith(Attempts(before, stage), result) else Attempts(before, stage)
  }

  lemma {:induction false} WithinComposes(a: Row, b: Row, c: Row, stage: Stage, number: nat, request: nat, result: Result, first: bool, second: bool)
    requires MayComplete(a, stage, number, request, result)
    requires IsWithin(a, b, stage, result, first) && IsWithin(b, c, stage, result, second)
    ensures MayComplete(b, stage, number, request, result) && IsWithin(a, c, stage, result, first || second)
  {
  }

  // ----- when a stage finishes in one run -----

  /** What there is, and what the runner has seen of it. */
  datatype View = View(row: Row, seen: Operation)

  /** What the runner has seen of the checkpoints is what there is. */
  predicate SeesAll(v: View) {
    v.seen.generation == Checkpoint(v.row, Generation) && v.seen.review == Checkpoint(v.row, Review)
  }

  /** The runner holds the live lease, and no cancellation that it has seen is gone. */
  predicate Holds(v: View, me: Owner) {
    v.row.lease == Held(me, true) && (v.seen.cancelRequested ==> v.row.cancelRequested)
  }

  /** As well, it has seen the revision and the status as they are. */
  predicate IsInHand(v: View, me: Owner) {
    v.row.lease == Held(me, true) && Agrees(v.seen, v.row)
  }

  /** As well, there is no cancellation or expiry. */
  predicate IsInStep(v: View, me: Owner) {
    IsInHand(v, me) && !v.row.expired && !v.row.cancelRequested
  }

  /** A renewal and a retry are answered. */
  predicate IsRetried(s: nat -> Turn, c: nat) {
    IsAnswered(s(c)) && IsAnswered(s(c + 1))
  }

  /** No retry is answered, but a write arrived, this one or one before, and the re-read of the accepted operation is answered. */
  predicate IsReread(s: nat -> Turn, c: nat, stored: bool) {
    if IsAnswered(s(c)) then IsLost(s(c + 1)) && (stored || s(c + 1).arrives) && IsAnswered(s(c + 2))
    else IsLost(s(c)) && stored && IsAnswered(s(c + 1))
  }

  /** A completion whose first renewal is turn `c` is acknowledged: at once, or after a lost reply, a renewal and a retry. */
  predicate IsAcknowledged(s: nat -> Turn, c: nat) {
    IsAnswered(s(c)) && (IsAnswered(s(c + 1)) || (IsLost(s(c + 1)) && IsRetried(s, c + 2)))
  }

  /** No acknowledgement comes back, but one of the writes arrived and the re-read is answered. */
  predicate IsReloaded(s: nat -> Turn, c: nat) {
    IsAnswered(s(c)) && IsLost(s(c + 1)) && IsReread(s, c + 2, s(c + 1).arrives)
  }

  /** An acknowledgement shows the checkpoint, or the renewal after a lost reply does. */
  predicate IsShown(s: nat -> Turn, c: nat) {
    && IsAcknowledged(s, c)
    && if IsAnswered(s(c + 1)) then s(c + 1).full else s(c + 3).full || (s(c + 1).arrives && s(c + 2).full)
  }

  /** The run goes on from a completion: its reply shows the checkpoint, or the re-read does. */
  predicate Confirms(s: nat -> Turn, c: nat) {
    IsShown(s, c) || IsReloaded(s, c)
  }

  /** The turn after an acknowledged completion. */
  function TurnAfter(s: nat -> Turn, c: nat): nat {
    if IsAnswered(s(c + 1)) then c + 2 else c + 4
  }

  /** An attempt may start: its renewal and its recording are answered. */
  predicate Starts(s: nat -> Turn, k: nat) {
    IsAnswered(s(k)) && IsAnswered(s(k + 1))
  }

  /** With `n` attempts to go from turn `k`, the last of which succeeds, the stage finishes in this run. */
  predicate Finishes(s: nat -> Turn, k: nat, n: nat)
    decreases n
  {
    && n > 0 && Starts(s, k)
    && if n == 1 then Confirms(s, k + 2) else IsAcknowledged(s, k + 2) && Finishes(s, TurnAfter(s, k + 2), n - 1)
  }

  /** In an undisturbed run the last completion's reply alone decides. */
  lemma {:induction false} FinishesExactly(s: nat -> Turn, k: nat, n: nat)
    requires n > 0 && forall j: nat :: k <= j ==> IsCalm(s(j))
    ensures Finishes(s, k, n) <==> s(k + 4 * n - 1).full
    decreases n
  {
    assert IsCalm(s(k)) && IsCalm(s(k + 1)) && IsCalm(s(k + 2)) && IsCalm(s(k + 3));
    if n > 1 {
      FinishesExactly(s, k + 4, n - 1);
    }
  }

  /** Attempts that fail and report it, then one that succeeds with the output that is returned. */
  predicate Succeeds(script: Script) {
    && script.finish.Returns? && script.moves != [] && script.finish.output.Obj?
    && (forall i :: 0 <= i < |script.moves| ==> script.moves[i].reports)
    && (forall i :: 0 <= i < |script.moves| - 1 ==> script.moves[i].result.Ended?)
    && script.moves[|script.moves| - 1].result == Succeeded(script.finish.output)
  }

  /** What one attempt that ran its course changes. */
  predicate HasTried(before: Row, after: Row, stage: Stage, result: Result, more: bool) {
    && SameBut(before, after, stage)
    && if result.Succeeded? then !more && Checkpoint(after, stage) == Present(result.output) else more && MayAttempt(after, stage)
  }

  /** An allowed change of status. */
  predicate Moves(me: Owner, next: Status, v: View, w: View) {
    && SameWork(v.row, w.row) && w.row.status == next
    && (if IsWorking(next) then IsInHand(w, me) else next != Accepted ==> w.row.lease.Free?) && (SeesAll(v) ==> SeesAll(w))
  }

  lemma {:induction false} DisallowedIsRefused(row: Row, me: Owner, revision: nat, next: Status)
    requires !OperationStore.IsAllowed(row.status, next)
    ensures After(row, Advance(me, revision, next)) == row
  {
  }

  lemma {:induction false} AskedOrStays(me: Owner, v: View)
    requires CanStart(v.row.status)
    ensures v.row.status == Accepted ==> MayAdvance(v.row, AwaitingClarification)
    ensures v.row.status == Accepted ==> forall w :: Moves(me, AwaitingClarification, v, w) ==> AsksOrStays(v.row, w.row)
    ensures v.row.status != Accepted ==> !OperationStore.IsAllowed(v.row.status, AwaitingClarification) && AsksOrStays(v.row, v.row)
  {
  }

  /** What a run that took the record over makes of it is what it makes of the record as it was. */
  lemma {:induction false} BlockedIsSame(before: Row, taken: Row, end: Row)
    requires SameWork(before, taken) && taken.status == StatusTaken(before) && CanStart(taken.status)
    ensures AsksOrStays(taken, end) ==> AsksOrStays(before, end)
    ensures MayReconcile(before) ==> MayReconcile(taken)
  {
  }

  lemma {:induction false} AdvanceIsSeen(row: Row, me: Owner, next: Status, seen: Operation, full: bool)
    requires IsInHand(View(row, seen), me) && !row.expired && MayAdvance(row, next)
    ensures var q := Advance(me, seen.revision, next);
      && Serve(row, q).Served?
      && Moves(me, next, View(row, seen), View(After(row, q), Viewed(seen, After(row, q), q, full)))
  {
    AdvanceIsServed(row, me, next);
  }

  lemma {:induction false} FreshIsEmpty(v: View)
    requires SeesAll(v) && IsFresh(v.row)
    ensures v.seen.generation.Absent? && v.seen.review.Absent? && CanStart(v.row.status) && MayReconcile(v.row)
    ensures v.row.status != Validating && v.row.status != Persisting
  {
  }

  lemma {:induction false} StartIsSeen(me: Owner, v: View, w: View)
    requires IsInHand(v, me) && SeesAll(v) && CanStart(v.row.status)
    requires if Starting(v.row.status) == 1 then Moves(me, Generating, v, w) else w == v
    ensures IsInHand(w, me) && IsStarted(v.row, w.row)
    ensures w.row.cancelRequested == v.row.cancelRequested && w.row.expired == v.row.expired
    ensures Checkpoint(w.row, Generation) == Checkpoint(v.row, Generation) && Checkpoint(w.row, Review) == Checkpoint(v.row, Review)
    ensures IsFresh(v.row) ==> w.row.status == Generating && MayAttempt(w.row, Generation) && MayReconcile(w.row)
  {
  }

  lemma {:induction false} ProceedsFrom(execution: Execution, row: Row)
    ensures HasBoth(row) ==> IsStored(row) && !HasPrepared(row)
    ensures MayReview(row) ==> IsStored(row) && CanStart(row.status) && !HasPrepared(row) && Checkpoint(row, Review).Absent?
    ensures IsFresh(row) ==> CanStart(row.status)
    ensures MayGoOn(execution, row) ==> MayReconcile(row) && (IsFresh(row) || (IsStored(row) && CanStart(row.status)))
  {
  }

  lemma {:induction false} StartedIsSame(before: Row, after: Row)
    requires IsStarted(before, after) && CanStart(before.status)
    ensures IsWorking(after.status) && SameFlags(before, after) && Advances(before.status) == Starting(before.status) + Advances(after.status)
    ensures HasPrepared(before) == HasPrepared(after) && (MayReview(before) ==> MayReview(after)) && (MayReconcile(before) ==> MayReconcile(after))
    ensures Checkpoint(after, Generation) == Checkpoint(before, Generation) && Checkpoint(after, Review) == Checkpoint(before, Review)
    ensures forall a, end :: IsSettled(a, after, end) ==> IsSettled(a, before, end)
    ensures forall end :: IsCancelled(after, end) ==> IsCancelled(before, end)
  {
  }

  lemma {:induction false} GeneratedIsReviewable(before: Row, after: Row, output: Json)
    requires IsFresh(before) && IsGenerated(before, after, output) && output.Obj?
    ensures MayReview(after) && after.status == Generating && Advances(after.status) == 1 && SameFlags(before, after)
  {
  }

  lemma {:induction false} EndsSooner(execution: Execution, s: nat -> Turn, k: nat, candidate: Json, script: Script, before: Row, after: Row, end: Row)
    requires Succeeds(script)
    ensures SameFlags(before, after) && EndsReviewed(execution, s, k, candidate, script, after, end) ==>
      EndsReviewed(execution, s, k, candidate, script, before, end)
  {
  }

  lemma {:induction false} TakenIsSame(execution: Execution, before: Row, taken: Row, me: Owner)
    requires MayTake(before, me) && SameWork(before, taken) && taken.status == StatusTaken(before)
    ensures CanStart(taken.status) && !taken.expired && taken.cancelRequested == before.cancelRequested && SameFlags(before, taken)
    ensures IsFresh(Taken(before)) == IsFresh(taken) && MayReview(Taken(before)) == MayReview(taken) && HasBoth(before) == HasBoth(taken)
    ensures MayGoOn(execution, Taken(before)) == MayGoOn(execution, taken) && IsAssessable(execution, before) == IsAssessable(execution, taken)
    ensures Checkpoint(taken, Generation) == Checkpoint(before, Generation) && Checkpoint(taken, Review) == Checkpoint(before, Review)
  {
  }

  lemma {:induction false} EndIsSame(execution: Execution, s: nat -> Turn, k: nat, before: Row, taken: Row, end: Row, generating: Script, reviewing: Script)
    requires SameWork(before, taken)
    ensures HasBoth(before) && HasBoth(taken) && IsConcluded(execution, taken, end) ==> IsConcluded(execution, before, end)
    ensures IsCancelled(taken, end) ==> IsCancelled(before, end)
    ensures Succeeds(generating) && Succeeds(reviewing) && EndsGenerated(execution, s, k, generating, reviewing, taken, end) ==>
      EndsGenerated(execution, s, k, generating, reviewing, before, end)
  {
  }

  lemma {:induction false} MayReviewIsIdle(row: Row)
    requires MayReview(row)
    ensures !HasPrepared(row) && MayReconcile(row) && Checkpoint(row, Generation).Present? && Checkpoint(row, Review).Absent?
  {
  }

  lemma {:induction false} ReviewedIsIdle(before: Row, after: Row, candidate: Json, output: Json)
    requires IsReviewed(before, after, candidate, output)
    ensures !HasPrepared(after) && IsWorking(after.status) && SameFlags(before, after)
  {
  }

  lemma {:induction false} RefusalSettlesNothing(a: Assessment, before: Row, after: Row)
    ensures a.Refused? ==> IsSettled(a, before, after)
  {
  }

  lemma {:induction false} JudgedWhenSettled(a: Assessment, before: Row, reviewed: Row, after: Row)
    ensures SameFlags(before, reviewed) && IsSettled(a, reviewed, after) ==> IsJudged(a, before, after)
  {
  }

  lemma {:induction false} ReviewIsOpen(row: Row)
    requires MayReview(row)
    ensures row.status == Accepted || row.status == RetryableFailure || row.status == Generating || row.status == Validating
  {
  }

  lemma {:induction false} ReviewIsSeen(me: Owner, v: View, w: View)
    requires IsInHand(v, me) && MayReview(v.row) && IsWorking(v.row.status)
    requires if v.row.status == Validating then w == v else Moves(me, Validating, v, w)
    ensures IsInHand(w, me) && w.row.cancelRequested == v.row.cancelRequested && w.row.expired == v.row.expired
    ensures MayAttempt(w.row, Review) && MayReconcile(w.row) && IsReviewing(v.row, w.row)
  {
  }

  /** The review stage was reached. */
  predicate IsReviewing(before: Row, after: Row) {
    SameWork(before, after) && after.status == Validating
  }

  lemma {:induction false} ReviewEnds(before: Row, reviewing: Row, after: Row, candidate: Json, finish: Finish)
    requires IsReviewing(before, reviewing) && Checkpoint(before, Generation) == Present(candidate)
    ensures finish.Returns? && HasRun(reviewing, after, Review, finish.output) ==> IsReviewed(before, after, candidate, finish.output)
    ensures IsReviewed(before, after, candidate, if finish.Returns? then finish.output else Null) ==>
      Checkpoint(after, Review) == Present(if finish.Returns? then finish.output else Null)
    ensures IsCancelled(reviewing, after) ==> IsCancelled(before, after)
  {
  }

  lemma {:induction false} StartEnds(before: Row, started: Row, after: Row, finish: Finish)
    requires IsStarted(before, started)
    ensures finish.Returns? && started.status == Generating && HasRun(started, after, Generation, finish.output) ==> IsGenerated(before, after, finish.output)
    ensures HasRun(started, after, Generation, if finish.Returns? then finish.output else Null) ==>
      Checkpoint(after, Generation) == Present(if finish.Returns? then finish.output else Null)
    ensures IsCancelled(started, after) ==> IsCancelled(before, after)
  {
  }

  /** What the re-read takes as proof that the completion committed. */
  predicate Proves(checkpoint: Optional, result: Result) {
    result.Succeeded? && result.output != Null && CanonicalJson(OrNull(checkpoint)) == CanonicalJson(result.output)
  }

  lemma {:induction false} ProvesStored(row: Row, stage: Stage, number: nat, request: nat, result: Result)
    ensures Proves(Checkpoint(row, stage), result) ==> IsDurable(row, stage, number, request, result)
    ensures MayComplete(row, stage, number, request, result) && (result.Succeeded? ==> result.output.Obj?) ==>
      (Proves(Checkpoint(row, stage), result) <==> result.Succeeded? && Checkpoint(row, stage).Present?)
  {
    OnlyNullIsNull(if result.Succeeded? then result.output else Null);
  }

  // ----- what calls do that nobody comes between -----

  predicate Renews(t: Turn, me: Owner, v: View, w: View, f: Flow) {
    && (f.Done? <==> IsAnswered(t)) && (f.Failure? <==> IsLost(t))
    && w.row == (if t.arrives then Bump(v.row) else v.row)
    && w.seen == (if f.Done? then Viewed(v.seen, w.row, Renew(me), t.full) else v.seen)
  }

  /** The attempt was recorded, and nothing else changed. */
  predicate IsRecorded(me: Owner, stage: Stage, request: nat, before: Row, w: View, number: nat) {
    && IsInStep(w, me) && SameBut(before, w.row, stage)
    && Attempts(w.row, stage) == Attempts(before, stage) + [Attempt(request, Prepared)]
    && number == |Attempts(w.row, stage)| && Seen(w.seen, stage).Absent?
  }

  lemma {:induction false} RecordIsSeen(row: Row, me: Owner, stage: Stage, request: nat, seen: Operation, full: bool)
    requires IsInStep(View(row, seen), me) && MayAttempt(row, stage) && IsKnown(row, seen)
    ensures var q := Record(me, seen.revision, stage, request);
      && Serve(row, q).Served? && Serve(row, q).reply.number == |Attempts(row, stage)| + 1
      && IsRecorded(me, stage, request, row, View(After(row, q), Viewed(seen, After(row, q), q, full)), |Attempts(row, stage)| + 1)
  {
    RecordIsServed(row, me, stage, request);
  }

  predicate Prepares(s: nat -> Turn, k: nat, me: Owner, stage: Stage, request: nat, v: View, w: View, f: Flow, number: nat) {
    && (f.Done? <==> Starts(s, k))
    && (f.Done? ==> IsRecorded(me, stage, request, v.row, w, number))
  }

  predicate Commits(t: Turn, me: Owner, stage: Stage, result: Result, v: View, w: View, f: Flow) {
    && (f.Done? <==> IsAnswered(t)) && (f.Failure? <==> IsLost(t))
    && IsWithin(v.row, w.row, stage, result, t.arrives)
    && w.seen == (if f.Done? then Viewed(v.seen, w.row, Complete(me, stage, 0, 0, result), t.full) else v.seen)
  }

  /** What two answered calls show of a stage. */
  function LatestShown(first: Turn, second: Turn, v: View, w: View, stage: Stage): Optional {
    if second.full then Checkpoint(w.row, stage) else if first.full then Checkpoint(v.row, stage) else Seen(v.seen, stage)
  }

  /** A renewal, and a retry if it is answered. */
  predicate Retries(s: nat -> Turn, c: nat, me: Owner, stage: Stage, result: Result, v: View, w: View, f: Flow) {
    && (f.Done? <==> IsRetried(s, c))
    && (f.Failure? <==> IsLost(s(c)) || (IsAnswered(s(c)) && IsLost(s(c + 1))))
    && IsWithin(v.row, w.row, stage, result, IsAnswered(s(c)) && s(c + 1).arrives)
    && Holds(w, me) && (f.Done? ==> IsInHand(w, me))
    && (f.Done? ==> Seen(w.seen, stage) == LatestShown(s(c), s(c + 1), v, w, stage))
  }

  lemma {:induction false} RetryEnds(s: nat -> Turn, c: nat, me: Owner, stage: Stage, result: Result, v: View, u: View, w: View, renewal: Flow, retry: Flow)
    requires Holds(v, me) && Renews(s(c), me, v, u, renewal)
    requires if renewal.Done? then Commits(s(c + 1), me, stage, result, u, w, retry) else w == u && retry == renewal
    ensures Retries(s, c, me, stage, result, v, w, retry)
  {
  }

  /** The re-read of the accepted operation. */
  predicate Rereads(t: Turn, stage: Stage, result: Result, v: View, w: View, f: Flow) {
    && w.row == v.row
    && (f.Done? <==> IsAnswered(t) && result.Succeeded? && Checkpoint(v.row, stage).Present?)
    && w.seen == (if f.Done? then Viewed(v.seen, w.row, Accept, t.full) else v.seen)
  }

  /** All that follows a lost acknowledgement: renewal, retry and re-read. */
  predicate Recommits(s: nat -> Turn, c: nat, me: Owner, stage: Stage, result: Result, v: View, w: View, f: Flow) {
    var stored := Checkpoint(v.row, stage).Present?;
    && (f.Done? <==> IsRetried(s, c) || (result.Succeeded? && IsReread(s, c, stored)))
    && (f.Done? ==> IsInHand(w, me) && IsWithin(v.row, w.row, stage, result, true))
    && (f.Done? && Seen(v.seen, stage).Absent? ==>
      (Seen(w.seen, stage).Present? <==> result.Succeeded? && (IsRetried(s, c) ==> s(c + 1).full || (stored && s(c).full))))
  }

  lemma {:induction false} RecommitEnds(s: nat -> Turn, c: nat, me: Owner, stage: Stage, number: nat, request: nat, result: Result, v: View, u: View, w: View, retry: Flow, f: Flow)
    requires MayComplete(v.row, stage, number, request, result) && Retries(s, c, me, stage, result, v, u, retry)
    requires if retry.Failure? then Rereads(s(if IsAnswered(s(c)) then c + 2 else c + 1), stage, result, u, w, f) else w == u && f == retry
    ensures Recommits(s, c, me, stage, result, v, w, f)
  {
    WithinComposes(v.row, u.row, u.row, stage, number, request, result, IsAnswered(s(c)) && s(c + 1).arrives, false);
    CompletedIsCheckpoint(v.row, u.row, stage, number, request, result, IsAnswered(s(c)) && s(c + 1).arrives);
  }

  lemma {:induction false} RetryMayComplete(s: nat -> Turn, c: nat, me: Owner, stage: Stage, number: nat, request: nat, result: Result, v: View, u: View, f: Flow)
    requires MayComplete(v.row, stage, number, request, result) && Retries(s, c, me, stage, result, v, u, f)
    ensures MayComplete(u.row, stage, number, request, result)
  {
    WithinComposes(v.row, u.row, u.row, stage, number, request, result, IsAnswered(s(c)) && s(c + 1).arrives, false);
  }

  lemma {:induction false} CommitMayComplete(s: nat -> Turn, c: nat, me: Owner, stage: Stage, number: nat, request: nat, result: Result, v: View, renewed: View, first: View, renewal: Flow, commit: Flow)
    requires IsInHand(v, me) && IsPending(v.row, stage, number, request)
    requires Renews(s(c), me, v, renewed, renewal) && Commits(s(c + 1), me, stage, result, renewed, first, commit) && renewal.Done?
    ensures MayComplete(first.row, stage, number, request, result) && Holds(first, me)
  {
    WithinComposes(v.row, renewed.row, first.row, stage, number, request, result, false, s(c + 1).arrives);
    WithinComposes(renewed.row, first.row, first.row, stage, number, request, result, s(c + 1).arrives, false);
  }

  lemma {:induction false} CompletedIsCheckpoint(v: Row, w: Row, stage: Stage, number: nat, request: nat, result: Result, arrived: bool)
    requires MayComplete(v, stage, number, request, result) && IsWithin(v, w, stage, result, arrived)
    ensures arrived && result.Succeeded? ==> Checkpoint(w, stage).Present?
    ensures !arrived || result.Ended? ==> Checkpoint(w, stage) == Checkpoint(v, stage)
    ensures Checkpoint(v, stage).Present? ==> result.Succeeded? && IsWithin(v, w, stage, result, true)
  {
  }

  /** A whole completion. */
  predicate Completes(s: nat -> Turn, c: nat, me: Owner, stage: Stage, result: Result, v: View, w: View, f: Flow) {
    && (f.Done? <==> IsAcknowledged(s, c) || (result.Succeeded? && IsReloaded(s, c)))
    && (f.Done? ==> IsInHand(w, me) && IsWithin(v.row, w.row, stage, result, true))
    && (f.Done? ==> (Seen(w.seen, stage).Present? <==> result.Succeeded? && Confirms(s, c)))
  }

  lemma {:induction false} CompletionEnds(s: nat -> Turn, c: nat, me: Owner, stage: Stage, number: nat, request: nat, result: Result, v: View, renewed: View, first: View, w: View, renewal: Flow, commit: Flow, f: Flow)
    requires IsInHand(v, me) && IsPending(v.row, stage, number, request) && Seen(v.seen, stage).Absent?
    requires Renews(s(c), me, v, renewed, renewal)
    requires if renewal.Done? then Commits(s(c + 1), me, stage, result, renewed, first, commit) else first == renewed && commit == renewal && w == first && f == commit
    requires renewal.Done? ==> if commit.Failure? then Recommits(s, c + 2, me, stage, result, first, w, f) else w == first && f == commit
    ensures Completes(s, c, me, stage, result, v, w, f)
  {
    if renewal.Done? {
      WithinComposes(v.row, renewed.row, first.row, stage, number, request, result, false, s(c + 1).arrives);
      CompletedIsCheckpoint(v.row, first.row, stage, number, request, result, s(c + 1).arrives);
      if commit.Failure? && f.Done? {
        WithinComposes(v.row, first.row, w.row, stage, number, request, result, s(c + 1).arrives, true);
      }
    }
  }

  /** One attempt of the provider. */
  predicate Tries(s: nat -> Turn, k: nat, me: Owner, stage: Stage, result: Result, v: View, w: View, f: Flow, more: bool) {
    && (f.Done? <==> Starts(s, k) && (IsAcknowledged(s, k + 2) || (result.Succeeded? && IsReloaded(s, k + 2))))
    && (f.Done? ==> IsInStep(w, me) && HasTried(v.row, w.row, stage, result, more))
    && (f.Done? ==> (Seen(w.seen, stage).Present? <==> result.Succeeded? && Confirms(s, k + 2)))
  }

  lemma {:induction false} TryEnds(s: nat -> Turn, k: nat, me: Owner, stage: Stage, request: nat, result: Result, v: View, u: View, w: View, prepared: Flow, number: nat, f: Flow)
    requires IsInStep(v, me) && MayAttempt(v.row, stage)
    requires Prepares(s, k, me, stage, request, v, u, prepared, number)
    requires if prepared.Done? then Completes(s, k + 2, me, stage, result, u, w, f) else f == prepared
    ensures Tries(s, k, me, stage, result, v, w, f, f.Done? && !result.Succeeded?)
  {
    if f.Done? {
      AttemptEnds(v.row, u.row, w.row, stage, request, result);
    }
  }

  /** How far a succeeding script has come after `i` attempts that began at turn `start`. */
  predicate IsUnderWay(s: nat -> Turn, start: nat, k: nat, me: Owner, stage: Stage, script: Script, i: nat, more: bool, v: View, w: View)
    requires i <= |script.moves| && Succeeds(script)
  {
    var n := |script.moves|;
    && IsInStep(w, me) && SameBut(v.row, w.row, stage)
    && (i < n ==> more && MayAttempt(w.row, stage) && (Finishes(s, start, n) <==> Finishes(s, k, n - i)))
    && (i == n ==> Checkpoint(w.row, stage) == Present(script.finish.output) && (Seen(w.seen, stage).Present? <==> Finishes(s, start, n)))
  }

  lemma {:induction false} FirstAttempt(s: nat -> Turn, start: nat, me: Owner, stage: Stage, script: Script, v: View)
    requires Succeeds(script) && IsInStep(v, me) && MayAttempt(v.row, stage)
    ensures IsUnderWay(s, start, start, me, stage, script, 0, true, v, v)
  {
  }

  lemma {:induction false} MayTryAnother(s: nat -> Turn, start: nat, k: nat, me: Owner, stage: Stage, script: Script, i: nat, v: View, w: View)
    requires Succeeds(script) && i < |script.moves| && IsUnderWay(s, start, k, me, stage, script, i, true, v, w)
    ensures IsInStep(w, me) && MayAttempt(w.row, stage)
    ensures script.moves[i].reports && (script.moves[i].result.Succeeded? ==> script.moves[i].result.output.Obj?)
  {
  }

  lemma {:induction false} AnotherAttempt(s: nat -> Turn, start: nat, k: nat, next: nat, me: Owner, stage: Stage, script: Script, i: nat, v: View, u: View, w: View, f: Flow, more: bool)
    requires Succeeds(script) && i < |script.moves| && IsUnderWay(s, start, k, me, stage, script, i, true, v, u)
    requires Tries(s, k, me, stage, script.moves[i].result, u, w, f, more)
    requires Starts(s, k) && IsAcknowledged(s, k + 2) ==> next == TurnAfter(s, k + 2)
    ensures if f.Done? then IsUnderWay(s, start, next, me, stage, script, i + 1, more, v, w) else !Finishes(s, start, |script.moves|)
    ensures IsCalm(s(k)) && IsCalm(s(k + 1)) && IsCalm(s(k + 2)) && IsCalm(s(k + 3)) ==> f.Done? && next == k + 4
  {
    var n := |script.moves|;
    if i == n - 1 {
      assert Finishes(s, k, 1) <==> Starts(s, k) && Confirms(s, k + 2);
    } else {
      assert script.moves[i].result.Ended?;
    }
  }

  /** One call of the provider with a succeeding script. */
  predicate Provides(s: nat -> Turn, k: nat, me: Owner, stage: Stage, script: Script, v: View, w: View, r: Provided)
    requires Succeeds(script)
  {
    if r.Output? then
      && IsInStep(w, me) && SameBut(v.row, w.row, stage)
      && r.output == script.finish.output && Checkpoint(w.row, stage) == Present(script.finish.output)
      && (Seen(w.seen, stage).Present? <==> Finishes(s, k, |script.moves|))
    else !Finishes(s, k, |script.moves|)
  }

  lemma {:induction false} ScriptFails(s: nat -> Turn, start: nat, me: Owner, stage: Stage, script: Script, v: View, w: View, r: Provided)
    requires Succeeds(script) && !Finishes(s, start, |script.moves|) && !r.Output?
    ensures Provides(s, start, me, stage, script, v, w, r)
  {
  }

  lemma {:induction false} ScriptEnds(s: nat -> Turn, start: nat, k: nat, me: Owner, stage: Stage, script: Script, i: nat, more: bool, v: View, w: View)
    requires Succeeds(script) && i <= |script.moves| && IsUnderWay(s, start, k, me, stage, script, i, more, v, w)
    requires i == |script.moves| || !more
    ensures i == |script.moves| && script.finish.Returns? && Provides(s, start, me, stage, script, v, w, Output(script.finish.output))
  {
  }

  lemma {:induction false} BumpedIsSame(before: Row, after: Row, stage: Stage)
    requires IsBumped(before, after)
    ensures MayReconcile(before) <==> MayReconcile(after)
    ensures Checkpoint(after, stage) == Checkpoint(before, stage) && after.cancelRequested == before.cancelRequested
    ensures forall end :: IsCancelled(after, end) ==> IsCancelled(before, end)
  {
  }

  lemma {:induction false} HasRunStays(before: Row, after: Row, stage: Stage, output: Json)
    requires HasRun(before, after, stage, output)
    ensures HasRun(before, Bump(after), stage, output)
  {
  }

  lemma {:induction false} OutputIsStored(s: nat -> Turn, k: nat, me: Owner, stage: Stage, script: Script, v: View, w: View, r: Provided)
    requires Succeeds(script) && Provides(s, k, me, stage, script, v, w, r) && MayAttempt(v.row, stage) && IsInStep(v, me)
    ensures r.Output? ==>
      && IsInStep(w, me) && HasRun(v.row, w.row, stage, script.finish.output) && w.row.status == StatusOf(stage)
      && r.output == script.finish.output && (MayReconcile(v.row) ==> MayReconcile(w.row))
    ensures r.Output? && IsKnown(w.row, w.seen) ==>
      (Finishes(s, k, |script.moves|) <==> Seen(w.seen, stage) == Present(script.finish.output) && IsObject(Seen(w.seen, stage)))
    ensures r.Output? && !Finishes(s, k, |script.moves|) ==> Seen(w.seen, stage).Absent?
    ensures !r.Output? ==> !Finishes(s, k, |script.moves|)
  {
  }

  /** Exactly this output is stored for the stage. */
  predicate HasRun(before: Row, after: Row, stage: Stage, output: Json) {
    SameBut(before, after, stage) && Checkpoint(after, stage) == Present(output)
  }

  lemma {:induction false} AttemptEnds(before: Row, prepared: Row, after: Row, stage: Stage, request: nat, result: Result)
    requires MayAttempt(before, stage) && SameBut(before, prepared, stage)
    requires Attempts(prepared, stage) == Attempts(before, stage) + [Attempt(request, Prepared)]
    requires IsWithin(prepared, after, stage, result, true)
    ensures HasTried(before, after, stage, result, !result.Succeeded?)
  {
  }

  lemma {:induction false} RecordIsServed(row: Row, me: Owner, stage: Stage, request: nat)
    requires LiveFor(row, me) && MayAttempt(row, stage)
    ensures Serve(row, Record(me, row.revision, stage, request)).Served?
    ensures Serve(row, Record(me, row.revision, stage, request)).reply.number == |Attempts(row, stage)| + 1
    ensures After(row, Record(me, row.revision, stage, request)) == Bump(WithAttempts(row, stage, Attempts(row, stage) + [Attempt(request, Prepared)]))
  {
  }

  lemma {:induction false} CompletionIsDurable(row: Row, me: Owner, stage: Stage, number: nat, request: nat, result: Result)
    requires Serve(row, Complete(me, stage, number, request, result)).Served?
    ensures IsDurable(After(row, Complete(me, stage, number, request, result)), stage, number, request, result)
  {
  }

  lemma {:induction false} CompletionIsServed(row: Row, me: Owner, stage: Stage, number: nat, request: nat, result: Result)
    requires LiveFor(row, me) && MayComplete(row, stage, number, request, result)
    ensures Serve(row, Complete(me, stage, number, request, result)).Served?
    ensures IsWithin(row, After(row, Complete(me, stage, number, request, result)), stage, result, true)
  {
  }

  lemma {:induction false} RenewIsServed(row: Row, me: Owner)
    requires LiveFor(row, me) && !IsTerminal(row.status)
    ensures Serve(row, Renew(me)).Served? && After(row, Renew(me)) == Bump(row)
  {
  }

  function ClaimOf(row: Row, me: Owner): Request {
    if row.status == AwaitingCapacity then Resume(me, row.revision) else Claim(me, row.revision)
  }

  lemma {:induction false} ClaimIsOf(row: Row, op: Operation, me: Owner)
    requires Agrees(op, row)
    ensures ClaimOf(row, me) == if op.status == AwaitingCapacity then Resume(me, op.revision) else Claim(me, op.revision)
  {
  }

  lemma {:induction false} ClaimIsServed(row: Row, me: Owner)
    requires MayTake(row, me)
    ensures var q := ClaimOf(row, me);
      && Serve(row, q).Served? && Serve(row, q).reply.token && !Serve(row, q).reply.deferred
      && After(row, q).lease == Held(me, true) && SameWork(row, After(row, q)) && After(row, q).status == StatusTaken(row)
  {
  }

  lemma {:induction false} ClaimIsSeen(row: Row, me: Owner, seen: Operation, full: bool)
    requires MayTake(row, me) && Agrees(seen, row)
    ensures var q := ClaimOf(row, me);
            var w := View(After(row, q), Viewed(seen, After(row, q), q, full));
      && IsInHand(w, me)
      && (SeesAll(View(row, seen)) ==> SeesAll(w))
      && w.seen.cancelRequested == if full then row.cancelRequested else seen.cancelRequested
  {
    ClaimIsServed(row, me);
  }

  /** No attempt is stored or under way, and generation may start. */
  predicate IsFresh(row: Row) {
    && (row.status == Accepted || row.status == RetryableFailure || row.status == Generating)
    && Checkpoint(row, Generation).Absent? && Checkpoint(row, Review).Absent? && !HasPrepared(row)
  }

  /** A structured candidate is stored, and its review may start. */
  predicate MayReview(row: Row) {
    && (row.status == Accepted || row.status == RetryableFailure || row.status == Generating || row.status == Validating)
    && IsObject(Checkpoint(row, Generation)) && Checkpoint(row, Review).Absent? && !IsPrepared(row.review)
  }

  /** A structured candidate is stored, with a structured review or none. */
  predicate IsStored(row: Row) {
    IsObject(Checkpoint(row, Generation)) && (Checkpoint(row, Review).Present? ==> IsObject(Checkpoint(row, Review)))
  }

  /** The stored candidate, with the stored review if there is one, can be assessed. */
  predicate IsAssessable(execution: Execution, row: Row) {
    IsObject(Checkpoint(row, Generation)) ==>
      execution.assess(Checkpoint(row, Generation).value, OrNull(Checkpoint(row, Review))).Assessed?
  }

  /** One of the two replies before the work shows that a cancellation was requested. */
  predicate CancelSeen(s: nat -> Turn, c: nat, row: Row) {
    row.cancelRequested && (s(c).full || s(c + 1).full)
  }

  /** What a run makes of a record it took over when sections are blocked: the owner is asked, or nothing changes. */
  predicate AsksOrStays(before: Row, after: Row) {
    && SameWork(before, after)
    && if StatusTaken(before) == Accepted then after.status == AwaitingClarification && after.lease.Free?
       else after.status == StatusTaken(before)
  }

  /** A record on which a run does not stop over what is stored. */
  predicate MayGoOn(execution: Execution, row: Row) {
    && MayReconcile(row) && IsAssessable(execution, row)
    && (IsFresh(row) || MayReview(row) || (HasBoth(row) && CanStart(row.status)))
  }

  /** The record as a run finds it once it has the lease. */
  function Taken(row: Row): Row {
    row.(status := StatusTaken(row))
  }

  /** The statuses that a run still passes through before it reviews. */
  function Advances(status: Status): nat {
    match status
    case Accepted => 2
    case RetryableFailure => 2
    case Generating => 1
    case _ => 0
  }

  predicate SameFlags(before: Row, after: Row) {
    && after.cancelRequested == before.cancelRequested && after.expired == before.expired
    && after.documentMoved == before.documentMoved && after.finality == before.finality
  }

  /** The statuses from which a run with the lease continues. */
  predicate CanStart(status: Status) {
    status == Accepted || status == RetryableFailure || status == Generating || status == Validating || status == Persisting
  }

  /** The advances that start the work. */
  function Starting(status: Status): nat {
    if status == Accepted || status == RetryableFailure then 1 else 0
  }

  /** The work was started, if it was not under way. */
  predicate IsStarted(before: Row, after: Row) {
    && SameWork(before, after)
    && after.status == (if Starting(before.status) == 1 then Generating else before.status)
  }

  /** Exactly this candidate is stored, and the review is as it was. */
  predicate IsGenerated(before: Row, after: Row, output: Json) {
    && after.status == Generating && SameFlags(before, after)
    && Checkpoint(after, Generation) == Present(output) && after.review == before.review
  }

  /** Exactly this review of this candidate is stored. */
  predicate IsReviewed(before: Row, after: Row, candidate: Json, output: Json) {
    && after.status == Validating && SameFlags(before, after)
    && Checkpoint(after, Generation) == Present(candidate) && Checkpoint(after, Review) == Present(output)
  }

  /** The operation ended by this assessment. */
  predicate IsJudged(a: Assessment, before: Row, after: Row) {
    && (Passed(a) && !before.documentMoved ==> after.status == ReadyForReview && after.finality == FinalSections(a.sections))
    && (a.Assessed? && !Passed(a) ==> after.status == TerminalFailure)
  }

  /** How an undisturbed run ends whose review of the candidate, if it needs one, starts at turn `k`. */
  predicate EndsReviewed(execution: Execution, s: nat -> Turn, k: nat, candidate: Json, script: Script, before: Row, after: Row)
    requires Succeeds(script)
  {
    if execution.drawsIssues(candidate) then IsJudged(execution.assess(candidate, Null), before, after)
    else if s(k + 4 * |script.moves| - 1).full then IsJudged(execution.assess(candidate, script.finish.output), before, after)
    else IsReviewed(before, after, candidate, script.finish.output)
  }

  /**
   How an undisturbed run ends whose generation starts at turn `k`: if the reply to the
   successful completion shows the checkpoint, after the review; otherwise with exactly
   what the provider returned stored, for the next run to find.
   */
  predicate EndsGenerated(execution: Execution, s: nat -> Turn, k: nat, generating: Script, reviewing: Script, before: Row, after: Row)
    requires Succeeds(generating) && Succeeds(reviewing)
  {
    var next := k + 4 * |generating.moves|;
    if s(next - 1).full then EndsReviewed(execution, s, next + 1, generating.finish.output, reviewing, before, after)
    else IsGenerated(before, after, generating.finish.output)
  }

  /** Both provider calls succeed, on a plan with nothing blocked and a snapshot that can be assessed. */
  predicate MayProduce(execution: Execution, generating: Script, reviewing: Script) {
    && execution.plan.blocked == [] && Succeeds(generating) && Succeeds(reviewing)
    && execution.assess(generating.finish.output, Null).Assessed?
  }

  /** A record that can still end: at most one attempt is under way. */
  predicate MayReconcile(row: Row) {
    !IsTerminal(row.status) && !(IsPrepared(row.generation) && IsPrepared(row.review))
  }

  /** Nothing is under way any more; every result stays, and the status. */
  predicate IsReconciled(before: Row, after: Row) {
    && !HasPrepared(after) && after.status == before.status && after.cancelRequested == before.cancelRequested
    && after.expired == before.expired
    && Checkpoint(after, Generation) == Checkpoint(before, Generation) && Checkpoint(after, Review) == Checkpoint(before, Review)
  }

  /** The operation was cancelled: nothing under way, nothing finalised, every result kept. */
  predicate IsCancelled(before: Row, after: Row) {
    && after.status == Cancelled && !HasPrepared(after) && after.lease.Free?
    && Checkpoint(after, Generation) == Checkpoint(before, Generation) && Checkpoint(after, Review) == Checkpoint(before, Review)
  }

  predicate IsWaiting(before: Row, after: Row, stage: Stage) {
    after.status == AwaitingCapacity && after.waitingStage == stage && after.lease.Free? && SameWork(before, after)
  }

  /** How an undisturbed run ends after an error of the provider, by the kind of the error. */
  predicate EndsAs(info: ErrorInfo, stage: Stage, before: Row, after: Row) {
    match info.kind
    case ClientCancelled => IsCancelled(before, after)
    case CapacityWait => !HasPrepared(before) ==> IsWaiting(before, after, stage)
    case CompletionUnconfirmed => after == Bump(before)
    case AttemptUnconfirmed => after.status == FailureOf(info) && !HasPrepared(after)
    case OtherError => info.retryable || !HasPrepared(before) ==> after.status == FailureOf(info) && SameWork(before, after)
  }

  function FailureOf(info: ErrorInfo): Status {
    if info.retryable then RetryableFailure else TerminalFailure
  }

  /** A granted lease: what the claimer has not seen of the record, the record does not hold. */
  lemma {:induction false} NothingIsUnseen(before: Row, met: Row, op: Operation, q: Request, reply: Reply)
    requires IsCurrent(before, op) && Follows(before, met) && (q.Claim? || q.Resume?) && q.expected == op.revision
    requires Serve(met, q).Served? && Serve(met, q).reply.token && IsTrueOf(reply, After(met, q))
    ensures forall stage :: Seen(Merge(op, reply), stage).Absent? ==> Checkpoint(After(met, q), stage).Absent?
  {
    CurrentStays(before, met, op);
    GrantsNeedCurrentRevision(met, q);
    assert Checkpoint(met, Generation) == op.generation && Checkpoint(met, Review) == op.review;
  }

  lemma {:induction false} ReconcileIsServed(row: Row, me: Owner)
    requires LiveFor(row, me) && MayReconcile(row)
    ensures Serve(row, Reconcile(me)).Served? && IsReconciled(row, After(row, Reconcile(me)))
    ensures After(row, Reconcile(me)).lease == row.lease
  {
  }

  /** What a turn makes of a request that nobody comes between. */
  predicate IsTurned(t: Turn, row: Row, q: Request, seen: Operation, after: Row, o: Outcome, next: Operation) {
    && after == (if t.arrives then After(row, q) else row)
    && (IsLost(t) ==> o.Error?)
    && (!IsAnswered(t) && !IsLost(t) ==> !o.Answer? && !o.Error?)
    && (IsAnswered(t) ==> match Serve(row, q)
         case Rejected(code) => o == Error(code)
         case Served(_, reply) => o.Answer? && o.reply.deferred == reply.deferred && next == Viewed(seen, after, q, t.full))
  }

  /** What an answer is worth: the request was served, and what the reply shows is so. */
  lemma {:induction false} AnswersAreTrue(t: Turn, met: Row, q: Request, op: Operation)
    requires ValidRow(met) && IsKnown(met, op)
    ensures var o := OutcomeOf(t, met, q);
      o.Answer? ==>
        && t.arrives && Serve(met, q).Served? && IsTrueOf(o.reply, After(met, q))
        && o.reply.token == Serve(met, q).reply.token && o.reply.number == Serve(met, q).reply.number
        && IsKnown(After(met, q), Merge(op, o.reply))
  {
    hide ValidRow, IsKnown, Follows, IsTrueOf, Serve, After, Merge;
    ServeKeeps(met, q);
    KnownStays(met, After(met, q), op);
    var o := OutcomeOf(t, met, q);
    if o.Answer? {
      ServedIsAfter(met, q);
      RepliesAreTrue(met, q);
      MergeIsKnown(After(met, q), op, o.reply);
    }
  }

  lemma {:induction false} ServedIsAfter(row: Row, q: Request)
    requires Serve(row, q).Served?
    ensures Serve(row, q).row == After(row, q)
  {
    hide Serve;
  }

  lemma {:induction false} RepliesShowEnough(t: Turn, met: Row, q: Request)
    ensures var o := OutcomeOf(t, met, q);
      o.Answer? ==> (q.Renew? ==> o.reply.cancel.Shown?) && (q.Accept? ==> o.reply.generation.Shown? && o.reply.review.Shown?)
  {
  }

  /** What a turn makes of a request and its reply where nobody comes between. */
  lemma {:induction false} QuietTurn(t: Turn, row: Row, q: Request, op: Operation)
    ensures var o := OutcomeOf(t, row, q);
      IsTurned(t, row, q, op, if t.arrives then After(row, q) else row, o, if o.Answer? then Merge(op, o.reply) else op)
  {
    hide Serve, After, Merge, Viewed;
    if Serve(row, q).Served? {
      ServedIsAfter(row, q);
      MergeIsView(row, q, op, t.full);
    }
  }

  predicate StaysOpen(q: Request, stage: Stage) {
    !MayStore(q, stage) && !q.Claim? && !q.Resume?
  }

  class Runner {
    const db: Database
    const me: Owner
    const execution: Execution
    var operation: Operation
    var leased: bool

    constructor (db: Database, me: Owner, execution: Execution)
      ensures this.db == db && this.me == me && this.execution == execution && !leased
      ensures operation == Operation(0, Accepted, false, Absent, Absent)
    {
      this.db := db;
      this.me := me;
      this.execution := execution;
      operation := Operation(0, Accepted, false, Absent, Absent);
      leased := false;
    }

    ghost predicate Valid()
      reads this, db
    {
      ValidRow(db.row) && IsKnown(db.row, operation) && AllSafe(execution, db.log) && InOrder(db.log, db.row) && NeedsReview(execution)
    }

    /** While this run holds the lease, the stage has no checkpoint. */
    ghost predicate Open(stage: Stage)
      reads this, db
    {
      HeldBy(db.row, me) ==> Checkpoint(db.row, stage).Absent?
    }

    ghost function State(): View
      reads this, db
    {
      View(db.row, operation)
    }

    ghost predicate Holding()
      reads this, db
    {
      leased && Holds(State(), me)
    }

    ghost predicate InHand()
      reads this, db
    {
      leased && IsInHand(State(), me)
    }

    ghost predicate InStep()
      reads this, db
    {
      leased && IsInStep(State(), me)
    }

    ghost predicate Seeing()
      reads this, db
    {
      SeesAll(State())
    }

    ghost predicate MaySend(q: Request)
      reads this, db
    {
      && (IsFrom(q, me) || q.Accept?)
      && (q.Record? ==> Open(q.stage))
      && (q.Finalize? ==> db.heard.Shown? && db.heard.value.cancel == Shown(false) && IsReleased(execution, db.row, q.sections))
    }

    /** rpcState: one call, and the merged view its reply gives. */
    method Call(q: Request) returns (o: Outcome, next: Operation)
      requires Valid() && MaySend(q)
      modifies db
      ensures Valid() && IsKnown(db.row, next)
      ensures Follows(old(db.row), db.row)
      ensures next == if o.Answer? then Merge(operation, o.reply) else operation
      ensures o.Answer? ==> Serve(old(db.Met(me)), q).Served? && db.row == After(old(db.Met(me)), q) && IsTrueOf(o.reply, db.row)
      ensures o.Answer? ==> ValidRow(old(db.Met(me))) && Follows(old(db.row), old(db.Met(me)))
      ensures o.Answer? ==> o.reply.token == Serve(old(db.Met(me)), q).reply.token && o.reply.number == Serve(old(db.Met(me)), q).reply.number
      ensures o.Answer? && q.Renew? ==> o.reply.cancel.Shown?
      ensures o.Answer? && q.Accept? ==> o.reply.generation.Shown? && o.reply.review.Shown?
      ensures db.heard == if o.Answer? then Shown(o.reply) else old(db.heard)
      ensures db.writes == old(db.writes) + (if q.Complete? then 1 else 0)
      ensures forall stage :: old(Open(stage)) && StaysOpen(q, stage) ==> Open(stage)
      ensures db.clock == old(db.clock) + 1
      ensures old(db.Calm()) ==> db.Calm()
      ensures old(db.Quiet()) ==> db.Quiet() && IsTurned(db.schedule(old(db.clock)), old(db.row), q, old(operation), db.row, o, next)
      ensures !IsWork(q) ==> AddsNoWork(old(db.log), db.log)
    {
      hide ValidRow, AllSafe, InOrder, Follows, IsKnown, IsSafe, IsTrueOf, Serve, After, Merge, OutcomeOf, IsTurned,
           NeedsReview, IsCalm;
      ghost var t, met, before := db.schedule(db.clock), db.Met(me), db.row;
      HappenAllKeeps(before, me, t.before);
      ServeKeeps(met, q);
      FollowsIsTransitive(before, met, After(met, q));
      SafeOnArrival(q);
      OpenAfter(q);
      StaysInOrder(db.log, before, met);
      AppendsInOrder(db.log, Arrival(me, q, met, db.heard), After(met, q));
      AppendsSafe(execution, db.log, Arrival(me, q, met, db.heard));
      KnownStays(before, met, operation);
      KnownStays(before, After(met, q), operation);
      AnswersAreTrue(t, met, q, operation);
      RepliesShowEnough(t, met, q);
      QuietTurn(t, before, q, operation);
      AddsNothing(db.log);
      AppendsNoWork(db.log, Arrival(me, q, met, db.heard));
      assert db.log + [] == db.log;
      o := db.Rpc(me, q);
      next := if o.Answer? then Merge(operation, o.reply) else operation;
    }

    lemma {:induction false} SafeOnArrival(q: Request)
      requires Valid() && MaySend(q)
      ensures IsSafe(execution, Arrival(me, q, db.Met(me), db.heard))
    {
      var events := db.schedule(db.clock).before;
      HappenAllKeeps(db.row, me, events);
      if q.Record? && HeldBy(db.Met(me), me) {
        HappenAllIsFenced(db.row, me, events, q.stage);
      }
      if q.Finalize? {
        ReleasedStays(execution, db.row, db.Met(me), q.sections);
      }
    }

    lemma {:induction false} OpenAfter(q: Request)
      requires Valid() && MaySend(q)
      ensures forall stage :: Open(stage) && HeldBy(db.Met(me), me) ==> Checkpoint(db.Met(me), stage).Absent?
      ensures forall stage :: Open(stage) && StaysOpen(q, stage) && HeldBy(After(db.Met(me), q), me) ==> Checkpoint(After(db.Met(me), q), stage).Absent?
    {
      var events := db.schedule(db.clock).before;
      forall stage | Open(stage) && HeldBy(db.Met(me), me) ensures Checkpoint(db.Met(me), stage).Absent? {
        HappenAllIsFenced(db.row, me, events, stage);
      }
      forall stage | Open(stage) && StaysOpen(q, stage) && HeldBy(After(db.Met(me), q), me)
        ensures Checkpoint(After(db.Met(me), q), stage).Absent?
      {
        OwnRequestsKeepCheckpoints(db.Met(me), q, me, stage);
      }
    }

    // ----- leases -----

    /** The first lease: only granted at the revision this run has seen, so what it has not seen is not there. */
    method ClaimLease() returns (f: Flow)
      requires Valid() && !leased && IsCurrent(db.row, operation)
      modifies this, db
      ensures Valid()
      ensures f.Done? ==> leased && forall stage :: Seen(operation, stage).Absent? ==> Open(stage)
      ensures Follows(old(db.row), db.row)
      ensures old(db.Calm()) ==> db.Calm()
      ensures old(db.Calm() && MayTake(db.row, me) && Agrees(operation, db.row)) ==>
        && f.Done? && db.Calm() && db.clock == old(db.clock) + 1 && InHand() && SameWork(old(db.row), db.row)
        && db.row.status == StatusTaken(old(db.row)) && (old(Seeing()) ==> Seeing())
      ensures AddsNoWork(old(db.log), db.log)
      ensures old(db.Calm() && MayTake(db.row, me) && Agrees(operation, db.row)) ==>
        operation.cancelRequested == if db.schedule(old(db.clock)).full then old(db.row).cancelRequested else old(operation).cancelRequested
    {
      hide ValidRow, AllSafe, InOrder, Follows, AddsNoWork, SameWork, StatusTaken, MayTake, Agrees;
      var q := if operation.status == AwaitingCapacity then Resume(me, operation.revision) else Claim(me, operation.revision);
      ghost var met := db.Met(me);
      if MayTake(db.row, me) && Agrees(operation, db.row) {
        ClaimIsOf(db.row, operation, me);
        ClaimIsServed(db.row, me);
        ClaimIsSeen(db.row, me, operation, db.schedule(db.clock).full);
      }
      var o, next := Call(q);
      if !o.Answer? {
        return FlowOf(o);
      }
      operation := next;
      if o.reply.deferred {
        return Broken;
      }
      if !o.reply.token {
        return Failure(OtherCode);
      }
      leased := true;
      NothingIsUnseen(old(db.row), met, old(operation), q, o.reply);
      return Done;
    }

    /** renewLease with a lease in hand. */
    method RenewLease() returns (f: Flow)
      requires Valid() && leased
      modifies this, db
      ensures Valid() && leased
      ensures f.Done? ==> db.heard.Shown? && db.heard.value.cancel == Shown(operation.cancelRequested)
      ensures forall stage :: old(Open(stage)) ==> Open(stage)
      ensures Follows(old(db.row), db.row)
      ensures db.writes == old(db.writes)
      ensures db.clock == old(db.clock) + 1
      ensures old(db.Calm()) ==> db.Calm()
      ensures old(db.Quiet()) ==> db.Quiet()
      ensures old(db.Quiet() && Holding() && !IsTerminal(db.row.status)) ==>
        && Renews(db.schedule(old(db.clock)), me, old(State()), State(), f)
        && Holding() && (f.Done? ==> InHand())
      ensures AddsNoWork(old(db.log), db.log)
    {
      hide ValidRow, AllSafe, InOrder;
      if Holding() && !IsTerminal(db.row.status) {
        RenewIsServed(db.row, me);
      }
      var o, next := Call(Renew(me));
      if !o.Answer? {
        return FlowOf(o);
      }
      if !o.reply.token {
        return Failure(OtherCode);
      }
      operation := next;
      return Done;
    }

    // ----- cancellation -----

    /** reconcilePreparedAttempt */
    method ReconcilePrepared() returns (f: Flow)
      requires Valid() && leased
      modifies this, db
      ensures Valid() && leased
      ensures old(db.Calm()) ==> db.Calm()
      ensures old(db.Calm() && InHand() && MayReconcile(db.row)) ==>
        f.Done? && db.Calm() && InHand() && IsReconciled(old(db.row), db.row)
      ensures AddsNoWork(old(db.log), db.log)
    {
      hide ValidRow, AllSafe, InOrder;
      f := RenewLease();
      ghost var renewed := db.log;
      if !f.Done? {
        return;
      }
      if InHand() && MayReconcile(db.row) {
        ReconcileIsServed(db.row, me);
      }
      var o, next := Call(Reconcile(me));
      operation := next;
      f := FlowOf(o);
      AddsNoWorkIsTransitive(old(db.log), renewed, db.log);
    }

    /** terminalizeCancellation: the run ends here whatever happens. */
    method TerminalizeCancellation()
      requires Valid() && leased
      modifies this, db
      ensures Valid()
      ensures old(db.Calm()) ==> db.Calm()
      ensures old(db.Calm() && InHand() && MayReconcile(db.row)) ==> IsCancelled(old(db.row), db.row)
      ensures AddsNoWork(old(db.log), db.log)
    {
      hide ValidRow, AllSafe, InOrder, Follows;
      var f := ReconcilePrepared();
      ghost var reconciled := db.log;
      if !f.Done? {
        return;
      }
      var o, next := Call(Cancel(me, operation.revision));
      AddsNoWorkIsTransitive(old(db.log), reconciled, db.log);
      if o.Answer? {
        operation := next;
        leased := false;
      }
    }

    /** finishRequestedCancellation */
    method FinishRequestedCancellation() returns (finished: bool)
      requires Valid() && leased
      modifies this, db
      ensures Valid()
      ensures old(db.Calm()) ==> db.Calm()
      ensures finished == old(operation.cancelRequested)
      ensures finished && old(db.Calm() && InHand() && MayReconcile(db.row)) ==> IsCancelled(old(db.row), db.row)
      ensures !finished ==> unchanged(this) && unchanged(db)
      ensures AddsNoWork(old(db.log), db.log)
    {
      if !operation.cancelRequested {
        AddsNothing(db.log);
        return false;
      }
      TerminalizeCancellation();
      return true;
    }

    // ----- provider attempts -----

    /** attemptLifecycle.prepare */
    method Prepare(stage: Stage, request: nat) returns (f: Flow, number: nat)
      requires Valid() && leased && Open(stage)
      modifies this, db
      ensures Valid() && leased && Open(stage)
      ensures forall s :: old(Open(s)) ==> Open(s)
      ensures Follows(old(db.row), db.row)
      ensures db.writes == old(db.writes)
      ensures old(db.Calm()) ==> db.Calm()
      ensures old(db.Quiet()) ==> db.Quiet()
      ensures old(db.Quiet() && InStep() && MayAttempt(db.row, stage)) ==>
        && Prepares(db.schedule, old(db.clock), me, stage, request, old(State()), State(), f, number)
        && (f.Done? ==> db.clock == old(db.clock) + 2)
      ensures old(db.Calm() && InHand() && db.row.cancelRequested && !IsTerminal(db.row.status)) ==>
        f.Failure? && InHand() && IsBumped(old(db.row), db.row)
    {
      hide ValidRow, AllSafe, InOrder;
      number := 0;
      f := RenewLease();
      ghost var renewed := db.row;
      if !f.Done? {
        return;
      }
      if operation.cancelRequested {
        return Failure(OtherCode), 0;
      }
      f, number := RecordAttempt(stage, request);
      FollowsIsTransitive(old(db.row), renewed, db.row);
    }

    method RecordAttempt(stage: Stage, request: nat) returns (f: Flow, number: nat)
      requires Valid() && leased && Open(stage)
      modifies this, db
      ensures Valid() && leased && Open(stage)
      ensures forall s :: old(Open(s)) ==> Open(s)
      ensures Follows(old(db.row), db.row)
      ensures db.writes == old(db.writes)
      ensures db.clock == old(db.clock) + 1
      ensures old(db.Calm()) ==> db.Calm()
      ensures old(db.Quiet()) ==> db.Quiet()
      ensures old(db.Quiet() && InStep() && MayAttempt(db.row, stage)) ==>
        && (f.Done? <==> IsAnswered(db.schedule(old(db.clock))))
        && (f.Done? ==> IsRecorded(me, stage, request, old(db.row), State(), number))
    {
      hide ValidRow, AllSafe, InOrder, Follows;
      number := 0;
      db.CalmIsQuiet();
      if InStep() && MayAttempt(db.row, stage) {
        RecordIsSeen(db.row, me, stage, request, operation, db.schedule(db.clock).full);
      }
      var o, next := Call(Record(me, operation.revision, stage, request));
      operation := next;
      f := FlowOf(o);
      if o.Answer? {
        number := o.reply.number;
        if number == 0 {
          f := Failure(OtherCode);
        }
      }
    }

    /** commitCompletion */
    method Commit(stage: Stage, number: nat, request: nat, result: Result) returns (f: Flow)
      requires Valid() && leased
      modifies this, db
      ensures Valid() && leased
      ensures f.Done? ==> IsDurable(db.row, stage, number, request, result)
      ensures Follows(old(db.row), db.row)
      ensures forall s :: old(Open(s)) && !(s == stage && result.Succeeded?) ==> Open(s)
      ensures db.writes == old(db.writes) + 1
      ensures db.clock == old(db.clock) + 1
      ensures old(db.Calm()) ==> db.Calm()
      ensures old(db.Quiet()) ==> db.Quiet()
      ensures old(db.Quiet() && Holding() && MayComplete(db.row, stage, number, request, result)) ==>
        Commits(db.schedule(old(db.clock)), me, stage, result, old(State()), State(), f)
    {
      hide ValidRow, AllSafe, InOrder, Follows;
      if Holding() && MayComplete(db.row, stage, number, request, result) {
        CompletionIsServed(db.row, me, stage, number, request, result);
      }
      ghost var met := db.Met(me);
      var o, next := Call(Complete(me, stage, number, request, result));
      operation := next;
      f := FlowOf(o);
      if f.Done? {
        CompletionIsDurable(met, me, stage, number, request, result);
      }
    }

    method RetryCommit(stage: Stage, number: nat, request: nat, result: Result) returns (f: Flow)
      requires Valid() && leased
      modifies this, db
      ensures Valid() && leased
      ensures f.Done? ==> IsDurable(db.row, stage, number, request, result)
      ensures forall s :: old(Open(s)) && !(s == stage && result.Succeeded?) ==> Open(s)
      ensures Follows(old(db.row), db.row)
      ensures db.writes <= old(db.writes) + 1
      ensures old(db.Calm()) ==> db.Calm()
      ensures old(db.Quiet()) ==> db.Quiet()
      ensures old(db.Quiet() && Holding() && MayComplete(db.row, stage, number, request, result)) ==>
        && Retries(db.schedule, old(db.clock), me, stage, result, old(State()), State(), f)
        && db.clock == old(db.clock) + (if IsAnswered(db.schedule(old(db.clock))) then 2 else 1)
    {
      hide ValidRow, AllSafe, InOrder, Retries, Follows;
      ghost var quiet, c, v := db.Quiet() && Holding() && MayComplete(db.row, stage, number, request, result), db.clock, State();
      f := RenewLease();
      ghost var renewal, u := f, State();
      if f.Done? {
        assert quiet ==> MayComplete(db.row, stage, number, request, result);
        f := Commit(stage, number, request, result);
        FollowsIsTransitive(v.row, u.row, db.row);
        if quiet {
          RetryEnds(db.schedule, c, me, stage, result, v, u, State(), renewal, f);
        }
      } else if quiet {
        RetryEnds(db.schedule, c, me, stage, result, v, u, u, renewal, f);
      }
    }

    /** Whether the reloaded checkpoint proves that the completion committed. */
    method Reload(stage: Stage, number: nat, request: nat, result: Result) returns (f: Flow)
      requires Valid() && leased
      modifies this, db
      ensures Valid() && leased
      ensures f.Done? ==> IsDurable(db.row, stage, number, request, result)
      ensures forall s :: old(Open(s)) ==> Open(s)
      ensures Follows(old(db.row), db.row)
      ensures db.writes == old(db.writes)
      ensures old(db.Calm()) ==> db.Calm()
      ensures old(db.Quiet()) ==> db.Quiet()
      ensures old(db.Quiet() && MayComplete(db.row, stage, number, request, result)) && (result.Succeeded? ==> result.output.Obj?) ==>
        Rereads(db.schedule(old(db.clock)), stage, result, old(State()), State(), f)
    {
      hide ValidRow, AllSafe, InOrder;
      var o, next := Call(Accept);
      if o.Thrown? || o.Dead? {
        return FlowOf(o);
      }
      ProvesStored(db.row, stage, number, request, result);
      if o.Answer? && Proves(Seen(next, stage), result) {
        operation := next;
        return Done;
      }
      return Failure(OtherCode);
    }

    /** After a lost acknowledgement: the renewal and the retry, and then the re-read. */
    method Recommit(stage: Stage, number: nat, request: nat, result: Result) returns (f: Flow)
      requires Valid() && leased
      modifies this, db
      ensures Valid() && leased
      ensures f.Done? ==> IsDurable(db.row, stage, number, request, result)
      ensures forall s :: old(Open(s)) && !(s == stage && result.Succeeded?) ==> Open(s)
      ensures Follows(old(db.row), db.row)
      ensures db.writes <= old(db.writes) + 1
      ensures old(db.Calm()) ==> db.Calm()
      ensures old(db.Quiet()) ==> db.Quiet()
      ensures old(db.Quiet() && Holding() && MayComplete(db.row, stage, number, request, result)) && (result.Succeeded? ==> result.output.Obj?) ==>
        && Recommits(db.schedule, old(db.clock), me, stage, result, old(State()), State(), f)
        && (IsRetried(db.schedule, old(db.clock)) ==> db.clock == old(db.clock) + 2)
    {
      hide ValidRow, AllSafe, InOrder, Recommits, Rereads, Follows, MayComplete;
      ghost var quiet, c, v := db.Quiet() && Holding() && MayComplete(db.row, stage, number, request, result) && (result.Succeeded? ==> result.output.Obj?), db.clock, State();
      f := RetryCommit(stage, number, request, result);
      ghost var retry, u := f, State();
      if f.Failure? {
        if quiet {
          RetryMayComplete(db.schedule, c, me, stage, number, request, result, v, u, f);
        }
        f := Reload(stage, number, request, result);
        FollowsIsTransitive(v.row, u.row, db.row);
        if quiet {
          RecommitEnds(db.schedule, c, me, stage, number, request, result, v, u, State(), retry, f);
        }
      } else if quiet {
        RecommitEnds(db.schedule, c, me, stage, number, request, result, v, u, u, retry, f);
      }
    }

    /**
     attemptLifecycle.complete: returns normally only when exactly this result is stored,
     after at most two writes of which at most one changes the record; otherwise it raises.
     When nobody else touches the record, it returns exactly if a write is acknowledged or
     the re-read shows the result, and the run has then seen the checkpoint exactly if a
     reply showed it.
     */
    method CompleteAttempt(stage: Stage, number: nat, request: nat, result: Result) returns (f: Flow)
      requires Valid() && leased
      modifies this, db
      ensures Valid() && leased
      ensures f.Done? ==> IsDurable(db.row, stage, number, request, result)
      ensures forall s :: old(Open(s)) && !(s == stage && result.Succeeded?) ==> Open(s)
      ensures Follows(old(db.row), db.row)
      ensures db.writes <= old(db.writes) + 2
      ensures old(db.Calm()) ==> db.Calm()
      ensures old(db.Quiet()) ==> db.Quiet()
      ensures old(db.Quiet() && InHand() && IsPending(db.row, stage, number, request) && Seen(operation, stage).Absent?) && (result.Succeeded? ==> result.output.Obj?) ==>
        && Completes(db.schedule, old(db.clock), me, stage, result, old(State()), State(), f)
        && (IsAcknowledged(db.schedule, old(db.clock)) ==> db.clock == TurnAfter(db.schedule, old(db.clock)))
    {
      hide ValidRow, AllSafe, InOrder, Completes, Recommits, Follows, IsDurable;
      ghost var quiet, c, v := IsCompletable(stage, number, request, result), db.clock, State();
      f := RenewLease();
      ghost var renewal, renewed := f, State();
      if !f.Done? {
        if quiet {
          CompletionEnds(db.schedule, c, me, stage, number, request, result, v, renewed, renewed, renewed, renewal, f, f);
        }
        return;
      }
      assert quiet ==> MayComplete(db.row, stage, number, request, result);
      f := Commit(stage, number, request, result);
      FollowsIsTransitive(v.row, renewed.row, db.row);
      ghost var commit, first := f, State();
      if !f.Failure? {
        if quiet {
          CompletionEnds(db.schedule, c, me, stage, number, request, result, v, renewed, first, first, renewal, commit, f);
        }
        return;
      }
      if quiet {
        CommitMayComplete(db.schedule, c, me, stage, number, request, result, v, renewed, first, renewal, commit);
      }
      f := Recommit(stage, number, request, result);
      FollowsIsTransitive(v.row, first.row, db.row);
      if quiet {
        CompletionEnds(db.schedule, c, me, stage, number, request, result, v, renewed, first, State(), renewal, commit, f);
      }
    }

    ghost predicate IsCompletable(stage: Stage, number: nat, request: nat, result: Result)
      reads this, db
    {
      && db.Quiet() && InHand() && IsPending(db.row, stage, number, request) && Seen(operation, stage).Absent?
      && (result.Succeeded? ==> result.output.Obj?)
    }

    /** One attempt of the provider; `more` when it may start another. */
    method TryMove(stage: Stage, move: Move) returns (f: Flow, more: bool)
      requires Valid() && leased && Open(stage)
      modifies this, db
      ensures Valid() && leased
      ensures f.Done? && more ==> Open(stage)
      ensures forall s :: old(Open(s)) && s != stage ==> Open(s)
      ensures Follows(old(db.row), db.row)
      ensures old(db.Calm()) ==> db.Calm()
      ensures old(db.Quiet()) ==> db.Quiet()
      ensures old(db.Quiet() && InStep() && MayAttempt(db.row, stage)) && move.reports && (move.result.Succeeded? ==> move.result.output.Obj?) ==>
        && Tries(db.schedule, old(db.clock), me, stage, move.result, old(State()), State(), f, more)
        && (Starts(db.schedule, old(db.clock)) && IsAcknowledged(db.schedule, old(db.clock) + 2) ==> db.clock == TurnAfter(db.schedule, old(db.clock) + 2))
      ensures old(db.Calm() && InHand() && db.row.cancelRequested && !IsTerminal(db.row.status)) ==>
        f.Failure? && InHand() && IsBumped(old(db.row), db.row)
    {
      hide ValidRow, AllSafe, InOrder, Tries, Completes;
      ghost var quiet, k, v := MayTry(stage, move), db.clock, State();
      var number;
      f, number := Prepare(stage, move.request);
      ghost var prepared, u := f, State();
      more := false;
      if !f.Done? || !move.reports {
        if quiet {
          TryEnds(db.schedule, k, me, stage, move.request, move.result, v, u, u, prepared, number, f);
        }
        return;
      }
      f := CompleteAttempt(stage, number, move.request, move.result);
      FollowsIsTransitive(v.row, u.row, db.row);
      more := f.Done? && !move.result.Succeeded?;
      if quiet {
        TryEnds(db.schedule, k, me, stage, move.request, move.result, v, u, State(), prepared, number, f);
      }
    }

    ghost predicate MayTry(stage: Stage, move: Move)
      reads this, db
    {
      db.Quiet() && InStep() && MayAttempt(db.row, stage) && move.reports && (move.result.Succeeded? ==> move.result.output.Obj?)
    }

    /** The attempts of a script, one after the other, up to the one that ends the call. */
    method TryMoves(stage: Stage, script: Script) returns (f: Flow)
      requires Valid() && leased && Open(stage)
      modifies this, db
      ensures Valid() && leased
      ensures forall s :: old(Open(s)) && s != stage ==> Open(s)
      ensures Follows(old(db.row), db.row)
      ensures old(db.Calm()) ==> db.Calm()
      ensures old(db.Quiet()) ==> db.Quiet()
      ensures old(db.Quiet() && InStep() && MayAttempt(db.row, stage)) && Succeeds(script) ==>
        if f.Done? then script.finish.Returns? && Provides(db.schedule, old(db.clock), me, stage, script, old(State()), State(), Output(script.finish.output))
        else !Finishes(db.schedule, old(db.clock), |script.moves|)
      ensures old(db.Calm() && InStep() && MayAttempt(db.row, stage)) && Succeeds(script) ==>
        f.Done? && db.clock == old(db.clock) + 4 * |script.moves|
      ensures old(db.Calm() && InHand() && db.row.cancelRequested && !IsTerminal(db.row.status)) ==>
        if f.Done? then State() == old(State()) else f.Failure? && InHand() && IsBumped(old(db.row), db.row)
    {
      hide ValidRow, AllSafe, InOrder, Follows, IsKnown, NeedsReview, Tries, IsCalm, IsUnderWay, Provides, MayAttempt,
           IsInStep, IsInHand, Open, Finishes, TurnAfter, Starts, IsAcknowledged, IsTerminal, IsBumped, Succeeds;
      ghost var quiet, start, v := db.Quiet() && InStep() && MayAttempt(db.row, stage) && Succeeds(script), db.clock, State();
      db.CalmIsQuiet();
      FollowsItself(db.row);
      if quiet {
        FirstAttempt(db.schedule, start, me, stage, script, v);
      }
      var i, more := 0, true;
      f := Done;
      while i < |script.moves| && more
        invariant 0 <= i <= |script.moves| && f == Done
        invariant Valid() && leased
        invariant more ==> Open(stage)
        invariant forall s :: old(Open(s)) && s != stage ==> Open(s)
        invariant Follows(old(db.row), db.row)
        invariant old(db.Calm()) ==> db.Calm()
        invariant old(db.Quiet()) ==> db.Quiet()
        invariant quiet ==> IsUnderWay(db.schedule, start, db.clock, me, stage, script, i, more, v, State())
        invariant quiet && old(db.Calm()) ==> db.clock == start + 4 * i
        invariant old(db.Calm() && InHand() && db.row.cancelRequested && !IsTerminal(db.row.status)) ==> i == 0 && State() == v
        decreases |script.moves| - i
      {
        ghost var k, u := db.clock, State();
        if quiet {
          MayTryAnother(db.schedule, start, k, me, stage, script, i, v, u);
        }
        f, more := TryMove(stage, script.moves[i]);
        FollowsIsTransitive(v.row, u.row, db.row);
        if quiet {
          assert old(db.Calm()) ==> IsCalm(db.schedule(k)) && IsCalm(db.schedule(k + 1)) && IsCalm(db.schedule(k + 2)) && IsCalm(db.schedule(k + 3));
          AnotherAttempt(db.schedule, start, k, db.clock, me, stage, script, i, v, u, State(), f, more);
        }
        if !f.Done? {
          return;
        }
        i := i + 1;
      }
      if quiet {
        ScriptEnds(db.schedule, start, db.clock, me, stage, script, i, more, v, State());
      }
    }

    /** One call of the provider for a stage: an arbitrary script of attempts. */
    method CallProvider(stage: Stage, script: Script) returns (r: Provided)
      requires Valid() && leased && Open(stage)
      modifies this, db
      ensures Valid() && leased
      ensures forall s :: old(Open(s)) && s != stage ==> Open(s)
      ensures Follows(old(db.row), db.row)
      ensures old(db.Calm()) ==> db.Calm()
      ensures old(db.Quiet()) ==> db.Quiet()
      ensures old(db.Quiet() && InStep() && MayAttempt(db.row, stage)) && Succeeds(script) ==>
        Provides(db.schedule, old(db.clock), me, stage, script, old(State()), State(), r)
      ensures old(db.Calm() && InStep() && MayAttempt(db.row, stage)) && Succeeds(script) ==>
        r.Output? && db.clock == old(db.clock) + 4 * |script.moves|
      ensures old(db.Calm() && InHand() && db.row.cancelRequested && !IsTerminal(db.row.status)) && !script.finish.Dies? ==>
        !r.Lost? && InHand() && IsBumped(old(db.row), db.row)
    {
      hide ValidRow, AllSafe, InOrder, Follows, IsKnown, NeedsReview, IsCalm, Provides, MayAttempt, IsInStep,
           IsInHand, Open, Finishes, IsTerminal, Succeeds;
      ghost var quiet, start, v := db.Quiet() && InStep() && MayAttempt(db.row, stage) && Succeeds(script), db.clock, State();
      db.CalmIsQuiet();
      var f := TryMoves(stage, script);
      if !f.Done? {
        r := if f.Death? then Lost else Errored(script.onLifecycleError);
        if quiet {
          ScriptFails(db.schedule, start, me, stage, script, v, State(), r);
        }
        return;
      }
      match script.finish
      case Returns(output) => r := Output(output);
      case Fails(info) => r := Errored(info);
      case Dies => r := Lost;
    }

    // ----- steps of the run -----

    /** advance */
    method AdvanceTo(next: Status) returns (f: Flow)
      requires Valid() && leased
      modifies this, db
      ensures Valid()
      ensures f.Done? ==> leased == IsWorking(next)
      ensures forall s :: old(Open(s)) ==> Open(s)
      ensures Follows(old(db.row), db.row)
      ensures db.clock == old(db.clock) + 1
      ensures old(db.Calm()) ==> db.Calm()
      ensures old(db.Calm() && InHand() && !db.row.expired && MayAdvance(db.row, next)) ==>
        f.Done? && Moves(me, next, old(State()), State())
      ensures AddsNoWork(old(db.log), db.log)
      ensures old(db.Calm() && !OperationStore.IsAllowed(db.row.status, next)) ==> db.row == old(db.row)
    {
      hide ValidRow, AllSafe, InOrder, Follows, Moves;
      if InHand() && !db.row.expired && MayAdvance(db.row, next) {
        AdvanceIsSeen(db.row, me, next, operation, db.schedule(db.clock).full);
      }
      if !OperationStore.IsAllowed(db.row.status, next) {
        DisallowedIsRefused(db.row, me, operation.revision, next);
      }
      db.CalmIsQuiet();
      var o, view := Call(Advance(me, operation.revision, next));
      operation := view;
      f := FlowOf(o);
      if f.Done? {
        leased := IsWorking(next);
      }
    }

    /** deferForCapacity */
    method DeferForCapacity(stage: Stage)
      requires Valid() && leased
      modifies this, db
      ensures Valid()
      ensures old(db.Calm()) ==> db.Calm()
      ensures old(db.Calm() && InStep() && db.row.status == StatusOf(stage) && !HasPrepared(db.row)) ==>
        IsWaiting(old(db.row), db.row, stage)
    {
      hide ValidRow, AllSafe, InOrder, Follows;
      var o, next := Call(Defer(me, operation.revision, stage));
      if o.Answer? {
        operation := next;
        leased := false;
      }
    }

    /** The catch block around a provider call: the run ends in it. */
    method EndAfterError(stage: Stage, info: ErrorInfo)
      requires Valid() && leased
      modifies this, db
      ensures Valid()
      ensures old(db.Calm()) ==> db.Calm()
      ensures old(db.Calm() && InStep() && db.row.status == StatusOf(stage) && MayReconcile(db.row)) ==>
        EndsAs(info, stage, old(db.row), db.row)
      ensures old(db.Calm() && InHand() && db.row.cancelRequested && MayReconcile(db.row)) ==>
        IsCancelled(old(db.row), db.row)
    {
      hide ValidRow, AllSafe, InOrder, Follows;
      var f := RenewLease();
      if !f.Done? {
        return;
      }
      var finished := FinishRequestedCancellation();
      if finished {
        return;
      }
      match info.kind
      case ClientCancelled => TerminalizeCancellation();
      case CapacityWait => DeferForCapacity(stage);
      case CompletionUnconfirmed =>
      case AttemptUnconfirmed =>
        f := ReconcilePrepared();
        if f.Done? {
          f := AdvanceTo(if info.retryable then RetryableFailure else TerminalFailure);
        }
      case OtherError =>
        f := AdvanceTo(if info.retryable then RetryableFailure else TerminalFailure);
    }

    /**
     Runs a stage at the provider; only an output that is the stored checkpoint counts.
     When nobody else touches the record, that is so exactly in the schedules that
     `Finishes` describes.
     */
    method RunStage(stage: Stage, script: Script) returns (ok: bool)
      requires Valid() && leased && Open(stage)
      modifies this, db
      ensures Valid()
      ensures ok ==> leased && IsObject(Seen(operation, stage))
      ensures ok ==> forall s :: old(Open(s)) && s != stage ==> Open(s)
      ensures ok ==> Follows(old(db.row), db.row)
      ensures old(db.Calm()) ==> db.Calm()
      ensures old(db.Quiet() && InStep() && MayAttempt(db.row, stage)) && Succeeds(script) ==>
        && (ok <==> Finishes(db.schedule, old(db.clock), |script.moves|))
        && (ok ==> InStep() && HasRun(old(db.row), db.row, stage, script.finish.output))
      ensures old(db.Calm() && InStep() && MayAttempt(db.row, stage) && MayReconcile(db.row)) && Succeeds(script) ==>
        && (ok <==> db.schedule(old(db.clock) + 4 * |script.moves| - 1).full)
        && HasRun(old(db.row), db.row, stage, script.finish.output)
        && (ok ==> db.clock == old(db.clock) + 4 * |script.moves|)
      ensures old(db.Calm() && InHand() && db.row.cancelRequested && MayReconcile(db.row) && Checkpoint(db.row, stage).Absent?) && !script.finish.Dies? ==>
        !ok && IsCancelled(old(db.row), db.row)
    {
      hide ValidRow, AllSafe, InOrder, Follows, Finishes, MayAttempt, IsCalm, Provides, SameBut, IsPrepared, IsBumped,
           IsCancelled;
      ghost var quiet, start, v := db.Quiet() && InStep() && MayAttempt(db.row, stage) && Succeeds(script), db.clock, State();
      ghost var calm := db.Calm() && InStep() && MayAttempt(db.row, stage) && MayReconcile(db.row) && Succeeds(script);
      db.CalmIsQuiet();
      if calm {
        db.FinishesInCalm(script);
      }
      var r := CallProvider(stage, script);
      ghost var w := State();
      if IsBumped(v.row, w.row) {
        BumpedIsSame(v.row, w.row, stage);
      }
      if quiet {
        OutputIsStored(db.schedule, start, me, stage, script, v, w, r);
      }
      if r.Lost? {
        return false;
      }
      if r.Errored? {
        EndAfterError(stage, r.info);
        return false;
      }
      var checkpoint := Seen(operation, stage);
      if !IsStructured(checkpoint) || CanonicalJson(checkpoint.value) != CanonicalJson(r.output) {
        EndAfterError(stage, ErrorInfo(CompletionUnconfirmed, false));
        if calm {
          HasRunStays(v.row, w.row, stage, script.finish.output);
        }
        return false;
      }
      return true;
    }

    /** Undisturbed, with the lease in hand and both checkpoints seen as they are. */
    ghost predicate MayWork()
      reads this, db
    {
      db.Calm() && InHand() && Seeing() && !db.row.expired
    }

    /**
     The generation stage: dispatched only when the record shows neither checkpoint.
     Undisturbed, what is stored is taken over; from nothing stored, a succeeding provider
     leaves exactly its output, and the run goes on exactly if the reply shows it.
     */
    method EnsureGenerated(script: Script) returns (ok: bool, generation: Optional, review: Optional)
      requires Valid() && leased
      requires forall s :: Seen(operation, s).Absent? ==> Open(s)
      modifies this, db
      ensures Valid()
      ensures ok ==> leased && IsObject(generation) && Checkpoint(db.row, Generation) == generation
      ensures ok ==> if review.Present? then Checkpoint(db.row, Review) == review else Open(Review)
      ensures old(db.Calm()) ==> db.Calm()
      ensures old(MayWork() && IsStored(db.row) && CanStart(db.row.status)) ==>
        && ok && InHand() && IsStarted(old(db.row), db.row) && db.clock == old(db.clock) + Starting(old(db.row.status))
        && generation == Checkpoint(old(db.row), Generation) && review == Checkpoint(old(db.row), Review)
      ensures old(MayWork() && InStep() && IsFresh(db.row)) && Succeeds(script) ==>
        var next := old(db.clock) + Starting(old(db.row.status)) + 4 * |script.moves|;
        && (ok <==> db.schedule(next - 1).full) && IsGenerated(old(db.row), db.row, script.finish.output)
        && (ok ==> InStep() && db.clock == next && generation == Present(script.finish.output) && review.Absent?)
      ensures old(MayWork() && db.row.cancelRequested && IsFresh(db.row)) && !script.finish.Dies? ==>
        !ok && IsCancelled(old(db.row), db.row)
    {
      hide ValidRow, AllSafe, InOrder, Follows, Moves, IsFresh, IsCancelled, IsPrepared, HasRun, IsGenerated,
           SameWork, IsStarted, IsCalm, Open, MayReconcile, MayAttempt, Finishes, NeedsReview;
      ghost var v := State();
      generation, review := operation.generation, operation.review;
      ok := false;
      if MayWork() && IsFresh(db.row) {
        FreshIsEmpty(v);
      }
      if (generation.Present? && !IsStructured(generation)) || (review.Present? && !IsStructured(review))
        || (review.Present? && generation.Absent?) {
        return;
      }
      if operation.status == Accepted || operation.status == RetryableFailure {
        var f := AdvanceTo(Generating);
        if !f.Done? {
          return;
        }
        KnownStays(v.row, db.row, v.seen);
      } else if !IsWorking(operation.status) {
        return;
      }
      ghost var w := State();
      if old(MayWork() && CanStart(db.row.status)) {
        StartIsSeen(me, v, w);
      }
      if (operation.status == Validating || operation.status == Persisting) && generation.Absent? && review.Absent? {
        return;
      }
      if generation.Absent? && review.Absent? {
        db.CalmIsQuiet();
        ok := RunStage(Generation, script);
        generation := operation.generation;
        if old(MayWork() && CanStart(db.row.status)) {
          StartEnds(v.row, w.row, db.row, script.finish);
        }
        return;
      }
      ok := true;
    }

    /** The review call and what leads to it, ending with the checkpoint as the run has seen it. */
    method DispatchReview(script: Script, candidate: Json) returns (ok: bool, review: Optional)
      requires Valid() && leased && Open(Review) && Checkpoint(db.row, Generation) == Present(candidate)
      modifies this, db
      ensures Valid()
      ensures ok ==> leased && Follows(old(db.row), db.row)
      ensures ok ==> review == operation.review && IsObject(review) && Checkpoint(db.row, Review) == review
      ensures old(db.Calm()) ==> db.Calm()
      ensures old(db.Calm() && InStep() && IsWorking(db.row.status) && MayReview(db.row)) && Succeeds(script) ==>
        var next := old(db.clock) + Advances(old(db.row.status)) + 4 * |script.moves|;
        && (ok <==> db.schedule(next - 1).full) && IsReviewed(old(db.row), db.row, candidate, script.finish.output)
        && (ok ==> InStep() && review == Present(script.finish.output))
      ensures old(db.Calm() && InHand() && !db.row.expired && IsWorking(db.row.status) && MayReview(db.row) && db.row.cancelRequested) && !script.finish.Dies? ==>
        !ok && IsCancelled(old(db.row), db.row)
    {
      hide ValidRow, AllSafe, InOrder, Follows, Moves, IsCancelled, IsPrepared, HasRun, IsReviewed, SameWork, IsCalm,
           MayReview, MayAttempt, MayReconcile, Open, Finishes, IsReviewing;
      ghost var v, may := State(), db.Calm() && InHand() && !db.row.expired && IsWorking(db.row.status) && MayReview(db.row);
      ok, review := false, Absent;
      if may {
        ReviewIsOpen(v.row);
      }
      if operation.status != Validating {
        var f := AdvanceTo(Validating);
        if !f.Done? {
          return;
        }
      }
      ghost var w := State();
      FollowsItself(v.row);
      if may {
        ReviewIsSeen(me, v, w);
      }
      db.CalmIsQuiet();
      ok := RunStage(Review, script);
      if may {
        ReviewEnds(v.row, w.row, db.row, candidate, script.finish);
      }
      if ok {
        FollowsIsTransitive(v.row, w.row, db.row);
        review := operation.review;
      }
    }

    /**
     The review stage: dispatched only for a candidate without issues, when the record
     shows no review. Undisturbed, a succeeding provider leaves exactly its review, and
     the run goes on exactly if the reply shows it.
     */
    method EnsureReviewed(script: Script, candidate: Json, stored: Optional) returns (ok: bool, evaluated: Assessment, review: Optional)
      requires Valid() && leased
      requires Checkpoint(db.row, Generation) == Present(candidate)
      requires if stored.Present? then Checkpoint(db.row, Review) == stored else Open(Review)
      modifies this, db
      ensures Valid()
      ensures ok ==> leased && Checkpoint(db.row, Generation) == Present(candidate)
      ensures ok ==> review.Present? ==> Checkpoint(db.row, Review) == review
      ensures ok ==> evaluated == execution.assess(candidate, OrNull(review))
      ensures old(db.Calm()) ==> db.Calm()
      ensures stored.Present? ==> (ok <==> execution.assess(candidate, stored.value).Assessed?)
      ensures stored.Absent? && execution.drawsIssues(candidate) ==> (ok <==> execution.assess(candidate, Null).Assessed?)
      ensures stored.Present? || execution.drawsIssues(candidate) ==> unchanged(this) && unchanged(db) && review == stored
      ensures stored.Absent? && !execution.drawsIssues(candidate) && execution.assess(candidate, Null).Assessed? && Succeeds(script) ==>
        old(db.Calm() && InStep() && IsWorking(db.row.status) && MayReview(db.row)) ==>
          var next := old(db.clock) + Advances(old(db.row.status)) + 4 * |script.moves|;
          && (ok <==> db.schedule(next - 1).full) && IsReviewed(old(db.row), db.row, candidate, script.finish.output)
          && (ok ==> InStep() && review == Present(script.finish.output))
      ensures stored.Absent? && !execution.drawsIssues(candidate) && execution.assess(candidate, Null).Assessed? && !script.finish.Dies? ==>
        old(db.Calm() && InHand() && !db.row.expired && IsWorking(db.row.status) && MayReview(db.row) && db.row.cancelRequested) ==>
          !ok && IsCancelled(old(db.row), db.row)
    {
      hide ValidRow, AllSafe, InOrder, Follows, IsCancelled, IsPrepared, IsReviewed, IsCalm, MayReview, Open, IsKnown;
      ok, review := false, stored;
      evaluated := execution.assess(candidate, OrNull(stored));
      if evaluated.Refused? {
        return;
      }
      if stored.Present? || execution.drawsIssues(candidate) {
        ok := true;
        return;
      }
      if operation.status == Persisting {
        if MayReview(db.row) {
          ReviewIsOpen(db.row);
        }
        return;
      }
      ghost var before := db.row;
      ok, review := DispatchReview(script, candidate);
      if !ok {
        return;
      }
      CheckpointStays(before, db.row, Generation);
      evaluated := execution.assess(candidate, OrNull(review));
      var finished := FinishRequestedCancellation();
      ok := !finished;
    }

    /** Out of generating, with the lease renewed. */
    method LeaveGenerating() returns (ok: bool)
      requires Valid() && leased
      modifies this, db
      ensures Valid() && Follows(old(db.row), db.row) && (ok ==> leased)
      ensures old(db.Calm()) ==> db.Calm()
      ensures old(db.Calm() && InStep() && IsWorking(db.row.status)) ==>
        && ok && InStep() && SameWork(old(db.row), db.row)
        && (db.row.status == Validating || db.row.status == Persisting)
    {
      hide ValidRow, AllSafe, InOrder, Follows;
      ghost var start := db.row;
      if operation.status == Generating {
        var f := AdvanceTo(Validating);
        if !f.Done? {
          return false;
        }
      }
      ghost var validating := db.row;
      FollowsItself(db.row);
      var f := RenewLease();
      FollowsIsTransitive(start, validating, db.row);
      ok := f.Done?;
    }

    /** Up to the status in which the document may be finalised, with a last look for a cancellation. */
    method ReachPersisting() returns (ok: bool)
      requires Valid() && leased
      modifies this, db
      ensures Valid() && Follows(old(db.row), db.row)
      ensures ok ==> leased && db.heard.Shown? && db.heard.value.cancel == Shown(operation.cancelRequested)
      ensures old(db.Calm()) ==> db.Calm()
      ensures old(db.Calm() && InStep() && IsWorking(db.row.status)) ==>
        ok && InStep() && db.row.status == Persisting && SameWork(old(db.row), db.row)
    {
      hide ValidRow, AllSafe, InOrder, Follows;
      ghost var start := db.row;
      ok := LeaveGenerating();
      ghost var left := db.row;
      if ok && operation.status != Persisting {
        var f := AdvanceTo(Persisting);
        FollowsIsTransitive(start, left, db.row);
        ok := f.Done?;
      }
      if !ok {
        return;
      }
      ghost var persisting := db.row;
      var f := RenewLease();
      FollowsIsTransitive(start, persisting, db.row);
      ok := f.Done?;
    }

    /** From a passed assessment to the finalising call. */
    method Persist(sections: seq<SectionOutput>)
      requires Valid() && leased && IsReleased(execution, db.row, sections)
      modifies this, db
      ensures Valid()
      ensures old(db.Calm()) ==> db.Calm()
      ensures old(db.Calm() && InStep() && IsWorking(db.row.status) && !db.row.documentMoved) ==>
        IsFinalised(old(db.row), db.row, sections)
    {
      ghost var start := db.row;
      var ok := ReachPersisting();
      if !ok {
        return;
      }
      var finished := FinishRequestedCancellation();
      if finished {
        return;
      }
      ReleasedStays(execution, start, db.row, sections);
      FinalizeWith(sections);
    }

    method FinalizeWith(sections: seq<SectionOutput>)
      requires Valid() && leased && MaySend(Finalize(me, operation.revision, sections))
      modifies this, db
      ensures Valid()
      ensures old(db.Calm()) ==> db.Calm()
      ensures old(db.Calm() && InStep() && db.row.status == Persisting && !db.row.documentMoved) ==>
        IsFinalised(old(db.row), db.row, sections)
    {
      if InStep() && db.row.status == Persisting && !db.row.documentMoved {
        FinalIsServed(db.row, me, sections);
      }
      var o, next := Call(Finalize(me, operation.revision, sections));
      if o.Answer? {
        operation := next;
      } else {
        AfterRefusedFinal(o);
      }
    }

    /** A final refused because a cancellation had been requested meanwhile: the cancellation is looked up and carried out. */
    method AfterRefusedFinal(o: Outcome)
      requires Valid() && leased
      modifies this, db
      ensures Valid()
      ensures old(db.Calm()) ==> db.Calm()
      ensures o == Error(CancellationReconciliation) && old(db.Calm() && InHand() && db.row.cancelRequested && MayReconcile(db.row)) ==>
        IsCancelled(old(db.row), db.row)
      ensures o != Error(CancellationReconciliation) ==> db.row == old(db.row)
    {
      hide ValidRow, AllSafe, InOrder, Follows;
      if o == Error(CancellationReconciliation) {
        var f := RenewLease();
        if f.Done? {
          var finished := FinishRequestedCancellation();
        }
      }
    }

    /** From an assessment to its consequence. */
    method Settle(candidate: Json, review: Optional, evaluated: Assessment)
      requires Valid() && leased && Checkpoint(db.row, Generation) == Present(candidate)
      requires review.Present? ==> Checkpoint(db.row, Review) == review
      requires evaluated == execution.assess(candidate, OrNull(review))
      requires execution.plan.blocked == []
      modifies this, db
      ensures Valid()
      ensures old(db.Calm()) ==> db.Calm()
      ensures old(db.Calm() && InStep() && IsWorking(db.row.status) && !HasPrepared(db.row)) ==>
        IsSettled(evaluated, old(db.row), db.row)
      ensures old(db.Calm() && InHand() && db.row.cancelRequested && MayReconcile(db.row)) ==> IsCancelled(old(db.row), db.row)
    {
      hide ValidRow, AllSafe, InOrder, Follows;
      ghost var assessed := db.row;
      var f := RenewLease();
      if !f.Done? {
        return;
      }
      var finished := FinishRequestedCancellation();
      if finished {
        return;
      }
      if !Passed(evaluated) {
        f := AdvanceTo(TerminalFailure);
        return;
      }
      assert review.Present?;
      ReleaseStands(execution, assessed, db.row, candidate, review.value);
      Persist(evaluated.sections);
    }

    /** A run with a candidate: the review, and what follows from the assessment. */
    method Conclude(script: Script, candidate: Json, stored: Optional)
      requires Valid() && leased && Checkpoint(db.row, Generation) == Present(candidate)
      requires if stored.Present? then Checkpoint(db.row, Review) == stored else Open(Review)
      requires execution.plan.blocked == []
      modifies this, db
      ensures Valid()
      ensures old(db.Calm()) ==> db.Calm()
      ensures stored.Present? && old(db.Calm() && InStep() && IsWorking(db.row.status) && !HasPrepared(db.row)) ==>
        IsSettled(execution.assess(candidate, stored.value), old(db.row), db.row)
      ensures stored.Absent? && Succeeds(script) && execution.assess(candidate, Null).Assessed? ==>
        old(db.Calm() && InStep() && IsWorking(db.row.status) && MayReview(db.row)) ==>
          EndsReviewed(execution, db.schedule, old(db.clock) + Advances(old(db.row.status)), candidate, script, old(db.row), db.row)
      ensures execution.assess(candidate, OrNull(stored)).Assessed? && !script.finish.Dies? ==>
        old(db.Calm() && InHand() && !db.row.expired && IsWorking(db.row.status) && (stored.Absent? ==> MayReview(db.row)) && MayReconcile(db.row) && db.row.cancelRequested) ==>
          IsCancelled(old(db.row), db.row)
    {
      hide ValidRow, AllSafe, InOrder, Follows, IsKnown, IsCancelled, IsSettled, IsReviewed, IsJudged, MayReview,
           MayReconcile, IsPrepared, IsCalm, Open, NeedsReview;
      ghost var v := State();
      if db.Calm() && InStep() && IsWorking(db.row.status) && MayReview(db.row) {
        MayReviewIsIdle(v.row);
      }
      var finished := FinishRequestedCancellation();
      if finished {
        return;
      }
      var ok, evaluated, review := EnsureReviewed(script, candidate, stored);
      ghost var w := State();
      if !ok {
        RefusalSettlesNothing(execution.assess(candidate, OrNull(stored)), v.row, w.row);
        return;
      }
      if IsReviewed(v.row, w.row, candidate, OrNull(review)) {
        ReviewedIsIdle(v.row, w.row, candidate, OrNull(review));
      }
      Settle(candidate, review, evaluated);
      JudgedWhenSettled(evaluated, v.row, w.row, db.row);
    }

    /** A run that holds the lease, from the first look for a cancellation on. */
    method Proceed(generating: Script, reviewing: Script)
      requires Valid() && leased
      requires forall s :: Seen(operation, s).Absent? ==> Open(s)
      modifies this, db
      ensures Valid()
      ensures old(db.Calm()) ==> db.Calm()
      ensures execution.plan.blocked == [] && old(MayWork() && InStep() && HasBoth(db.row) && CanStart(db.row.status)) ==>
        IsConcluded(execution, old(db.row), db.row)
      ensures execution.plan.blocked == [] && Succeeds(reviewing) && old(MayWork() && InStep() && MayReview(db.row) && IsAssessable(execution, db.row)) ==>
        EndsReviewed(execution, db.schedule, old(db.clock) + Advances(old(db.row.status)), Checkpoint(old(db.row), Generation).value, reviewing, old(db.row), db.row)
      ensures MayProduce(execution, generating, reviewing) && old(MayWork() && InStep() && IsFresh(db.row)) ==>
        EndsGenerated(execution, db.schedule, old(db.clock) + Starting(old(db.row.status)), generating, reviewing, old(db.row), db.row)
      ensures execution.plan.blocked == [] && !generating.finish.Dies? && !reviewing.finish.Dies? ==>
        old(MayWork() && db.row.cancelRequested && MayGoOn(execution, db.row)) ==> IsCancelled(old(db.row), db.row)
      ensures execution.plan.blocked != [] ==> AddsNoWork(old(db.log), db.log)
      ensures execution.plan.blocked != [] && old(MayWork() && !operation.cancelRequested && CanStart(db.row.status)) ==> AsksOrStays(old(db.row), db.row)
      ensures execution.plan.blocked != [] && old(MayWork() && operation.cancelRequested && MayReconcile(db.row)) ==> IsCancelled(old(db.row), db.row)
    {
      hide ValidRow, AllSafe, InOrder, Follows, IsKnown, IsCancelled, IsSettled, IsReviewed, IsJudged, IsFresh,
           IsStored, IsStarted, MayReview, MayReconcile, IsPrepared, IsCalm, Open, NeedsReview, EndsReviewed,
           IsGenerated, SeesAll, Starting, Advances, CanStart, SameFlags, AddsNoWork, AsksOrStays, Moves, MayAdvance;
      ghost var v := State();
      ProceedsFrom(execution, v.row);
      var finished := FinishRequestedCancellation();
      if finished {
        return;
      }
      if execution.plan.blocked != [] {
        if CanStart(v.row.status) {
          AskedOrStays(me, v);
        }
        var f := AdvanceTo(AwaitingClarification);
        return;
      }
      var ok, generation, stored := EnsureGenerated(generating);
      ghost var w, k := State(), db.clock;
      if !ok {
        return;
      }
      if IsStarted(v.row, w.row) && CanStart(v.row.status) {
        StartedIsSame(v.row, w.row);
      }
      if IsFresh(v.row) && IsGenerated(v.row, w.row, generation.value) {
        GeneratedIsReviewable(v.row, w.row, generation.value);
      }
      Conclude(reviewing, generation.value, stored);
      if Succeeds(reviewing) {
        EndsSooner(execution, db.schedule, k + Advances(w.row.status), generation.value, reviewing, v.row, w.row, db.row);
      }
    }

    /** Reads the accepted operation and takes the lease on it. */
    method TakeOver() returns (ok: bool)
      requires Valid() && !leased && operation == Operation(0, Accepted, false, Absent, Absent)
      modifies this, db
      ensures Valid()
      ensures ok ==> leased && forall s :: Seen(operation, s).Absent? ==> Open(s)
      ensures old(db.Calm()) ==> db.Calm()
      ensures old(db.Calm() && MayTake(db.row, me)) ==>
        && ok && db.clock == old(db.clock) + 2 && InHand() && Seeing() && SameWork(old(db.row), db.row)
        && db.row.status == StatusTaken(old(db.row))
      ensures old(db.Calm() && db.row.status in {AwaitingClarification, TerminalFailure, Cancelled, ReadyForReview}) ==> !ok && db.row == old(db.row)
      ensures AddsNoWork(old(db.log), db.log)
      ensures old(db.Calm() && MayTake(db.row, me)) ==>
        operation.cancelRequested == CancelSeen(db.schedule, old(db.clock), old(db.row))
    {
      hide ValidRow, AllSafe, InOrder, IsKnown, NeedsReview;
      db.CalmIsQuiet();
      var o, next := Call(Accept);
      ghost var read := db.log;
      operation := next;
      if !o.Answer? || !IsResumable(operation.status) {
        return false;
      }
      var f := ClaimLease();
      ok := f.Done?;
      AddsNoWorkIsTransitive(old(db.log), read, db.log);
    }

    /** One run of runCapturedDocumentOperation on an accepted operation, ending however the environment likes. */
    method Run(generating: Script, reviewing: Script)
      requires Valid() && !leased && operation == Operation(0, Accepted, false, Absent, Absent)
      modifies this, db
      ensures Valid()
      ensures old(db.Calm()) ==> db.Calm()
      ensures old(db.Calm() && db.row.status in {AwaitingClarification, TerminalFailure, Cancelled, ReadyForReview}) ==> db.row == old(db.row)
      ensures execution.plan.blocked == [] && old(db.Calm() && IsClaimable(db.row, me) && HasBoth(db.row)) ==>
        IsConcluded(execution, old(db.row), db.row)
      ensures execution.plan.blocked == [] && Succeeds(reviewing) && old(db.Calm() && IsClaimable(db.row, me) && MayReview(Taken(db.row)) && IsAssessable(execution, db.row)) ==>
        EndsReviewed(execution, db.schedule, old(db.clock) + 2 + Advances(StatusTaken(old(db.row))), Checkpoint(old(db.row), Generation).value, reviewing, old(db.row), db.row)
      ensures MayProduce(execution, generating, reviewing) && old(db.Calm() && IsClaimable(db.row, me) && IsFresh(Taken(db.row))) ==>
        EndsGenerated(execution, db.schedule, old(db.clock) + 2 + Starting(StatusTaken(old(db.row))), generating, reviewing, old(db.row), db.row)
      ensures execution.plan.blocked == [] && !generating.finish.Dies? && !reviewing.finish.Dies? ==>
        old(db.Calm() && MayTake(db.row, me) && db.row.cancelRequested && MayGoOn(execution, Taken(db.row))) ==> IsCancelled(old(db.row), db.row)
      ensures execution.plan.blocked != [] ==> AddsNoWork(old(db.log), db.log)
      ensures execution.plan.blocked != [] && old(db.Calm() && MayTake(db.row, me) && MayReconcile(db.row)) ==>
        if CancelSeen(db.schedule, old(db.clock), old(db.row)) then IsCancelled(old(db.row), db.row) else AsksOrStays(old(db.row), db.row)
    {
      hide ValidRow, AllSafe, InOrder, Follows, IsKnown, IsCancelled, IsConcluded, EndsReviewed, EndsGenerated,
           IsFresh, MayReview, MayGoOn, IsCalm, Open, NeedsReview, IsAssessable, SameWork, HasBoth, SeesAll,
           Checkpoint, SameFlags, StatusTaken, Taken, Starting, Advances, Succeeds, CanStart, AddsNoWork,
           AsksOrStays, MayReconcile, CancelSeen;
      ghost var before := db.row;
      var ok := TakeOver();
      ghost var log := db.log;
      if !ok {
        return;
      }
      ghost var taken := db.row;
      ghost var k := db.clock;
      if MayTake(before, me) && SameWork(before, taken) && taken.status == StatusTaken(before) {
        TakenIsSame(execution, before, taken, me);
      }
      if MayReview(taken) {
        MayReviewIsIdle(taken);
      }
      Proceed(generating, reviewing);
      if execution.plan.blocked != [] {
        AddsNoWorkIsTransitive(old(db.log), log, db.log);
        if SameWork(before, taken) && taken.status == StatusTaken(before) && CanStart(taken.status) {
          BlockedIsSame(before, taken, db.row);
        }
      }
      if SameWork(before, taken) {
        EndIsSame(execution, db.schedule, k + Starting(taken.status), before, taken, db.row, generating, reviewing);
        if Succeeds(reviewing) && Checkpoint(taken, Generation).Present? {
          EndsSooner(execution, db.schedule, k + Advances(taken.status), Checkpoint(taken, Generation).value, reviewing, before, taken, db.row);
        }
      }
    }
  }

  // ----- whole lifetimes -----

  /** Any number of runs, each of which may end or die anywhere, with anything happening between them. */
  method Lifetime(db: Database, execution: Execution, scripts: seq<(Script, Script)>)
    requires ValidRow(db.row) && db.log == [] && NeedsReview(execution)
    modifies db
    ensures ValidRow(db.row) && AllSafe(execution, db.log) && InOrder(db.log, db.row)
  {
    for k := 0 to |scripts|
      invariant ValidRow(db.row) && AllSafe(execution, db.log) && InOrder(db.log, db.row)
    {
      var runner := new Runner(db, k, execution);
      runner.Run(scripts[k].0, scripts[k].1);
    }
  }

  ghost predicate IsSound(db: Database, execution: Execution)
    reads db
  {
    ValidRow(db.row) && AllSafe(execution, db.log) && InOrder(db.log, db.row)
  }

  lemma {:induction false} LapsedIsSame(execution: Execution, base: Row, before: Row, me: Owner, candidate: Json, review: Json)
    requires !base.cancelRequested && !base.expired
    requires candidate.Obj? && review.Obj? && execution.assess(candidate, Null).Assessed?
    ensures var row := Happen(before, me, LeaseLapses);
      && row.status == before.status && row.finality == before.finality
      && (IsGenerated(base, before, candidate) && Checkpoint(base, Review).Absent? && !IsPrepared(base.review) ==>
           IsClaimable(row, me) && IsAssessable(execution, row) && MayReview(Taken(row)) && SameFlags(base, row) && Checkpoint(row, Generation) == Present(candidate))
      && (IsReviewed(base, before, candidate, review) ==>
           IsClaimable(row, me) && HasBoth(row) && SameFlags(base, row)
           && Checkpoint(row, Generation) == Present(candidate) && Checkpoint(row, Review) == Present(review))
  {
  }

  /** Another run, once the lease of the one before has lapsed. */
  method RunAgain(db: Database, me: Owner, execution: Execution, generating: Script, reviewing: Script, ghost base: Row, ghost candidate: Json, ghost review: Json)
    requires IsSound(db, execution) && NeedsReview(execution) && db.Calm()
    requires execution.plan.blocked == [] && Succeeds(reviewing) && execution.assess(candidate, Null).Assessed?
    requires candidate.Obj? && review.Obj? && !base.cancelRequested && !base.expired
    modifies db
    ensures IsSound(db, execution) && db.Calm()
    ensures old(db.row.status) in {AwaitingClarification, TerminalFailure, Cancelled, ReadyForReview} ==> db.row.status == old(db.row.status) && db.row.finality == old(db.row.finality)
    ensures old(IsGenerated(base, db.row, candidate)) && Checkpoint(base, Review).Absent? && !IsPrepared(base.review) ==>
      if execution.drawsIssues(candidate) then IsJudged(execution.assess(candidate, Null), base, db.row)
      else IsReviewed(base, db.row, candidate, reviewing.finish.output) || IsJudged(execution.assess(candidate, reviewing.finish.output), base, db.row)
    ensures old(IsReviewed(base, db.row, candidate, review)) ==> IsJudged(execution.assess(candidate, review), base, db.row)
  {
    hide ValidRow, InOrder, AllSafe, Follows, IsGenerated, IsReviewed, IsSettled, IsJudged, Happen, MayReview, Taken,
         StatusTaken, IsAssessable, IsCalm, IsCancelled, EndsGenerated, Checkpoint, SameFlags;
    LapsedIsSame(execution, base, db.row, me, candidate, review);
    HappenKeeps(db.row, me, LeaseLapses);
    StaysInOrder(db.log, db.row, Happen(db.row, me, LeaseLapses));
    db.Lapse(me);
    ghost var lapsed := db.row;
    var runner := new Runner(db, me, execution);
    ghost var k := db.clock + 2 + Advances(StatusTaken(db.row));
    runner.Run(generating, reviewing);
    EndsSooner(execution, db.schedule, k, candidate, reviewing, base, lapsed, db.row);
    JudgedWhenSettled(execution.assess(candidate, review), base, lapsed, db.row);
  }

  lemma {:induction false} JudgedStands(a: Assessment, base: Row, before: Row, after: Row)
    requires IsJudged(a, base, before)
    requires before.status in {AwaitingClarification, TerminalFailure, Cancelled, ReadyForReview} ==> after.status == before.status && after.finality == before.finality
    ensures IsJudged(a, base, after)
  {
  }

  /** Where the last reply to generation shows the checkpoint or not. */
  function LastReply(row: Row, clock: nat, generating: Script): nat
    requires Succeeds(generating)
  {
    clock + 2 + Starting(StatusTaken(row)) + 4 * |generating.moves| - 1
  }

  /**
   Three runs are enough, whatever the replies show. With nothing stored, nobody else at
   the record, no call lost and providers that succeed, the operation ends by the
   assessment of the candidate that the first run generated, with the review of the
   first run if that run got so far, and of the second run otherwise.
   */
  method ThreeRuns(db: Database, execution: Execution, generating: Script, first: Script, second: Script)
    requires IsSound(db, execution) && NeedsReview(execution) && db.Calm()
    requires MayProduce(execution, generating, first) && Succeeds(second)
    requires IsClaimable(db.row, 0) && IsFresh(Taken(db.row))
    modifies db
    ensures IsSound(db, execution)
    ensures
      var candidate := generating.finish.output;
      var review := if db.schedule(LastReply(old(db.row), old(db.clock), generating)).full then first.finish.output else second.finish.output;
      IsJudged(execution.assess(candidate, if execution.drawsIssues(candidate) then Null else review), old(db.row), db.row)
  {
    hide ValidRow, AllSafe, InOrder, Follows, IsGenerated, IsReviewed, IsJudged, IsSettled, IsAssessable, IsCancelled,
         SameFlags, Happen;
    ghost var base, candidate := db.row, generating.finish.output;
    ghost var shown := db.schedule(LastReply(db.row, db.clock, generating)).full;
    ghost var review := if shown then first.finish.output else second.finish.output;
    ghost var a := execution.assess(candidate, if execution.drawsIssues(candidate) then Null else review);
    var runner := new Runner(db, 0, execution);
    runner.Run(generating, first);
    ghost var one := db.row;
    assert if !shown then IsGenerated(base, one, candidate) else IsReviewed(base, one, candidate, review) || IsJudged(a, base, one);
    RunAgain(db, 1, execution, generating, second, base, candidate, review);
    ghost var two := db.row;
    if IsJudged(a, base, one) {
      JudgedStands(a, base, one, two);
    }
    assert IsReviewed(base, two, candidate, review) || IsJudged(a, base, two);
    RunAgain(db, 2, execution, generating, second, base, candidate, review);
    if IsJudged(a, base, two) {
      JudgedStands(a, base, two, db.row);
    }
  }

  /** What a finalising request that reaches the database is worth, whatever the runs before it did. */
  lemma {:induction false} FinalisationIsSound(judges: Judges, plan: Plan, identity: Json, log: seq<Arrival>, i: nat)
    requires AllSafe(ExecutionOf(judges, plan, identity), log) && i < |log| && log[i].q.Finalize?
    requires NoRepeats(SectionKeys(plan.template.sections))
    ensures plan.blocked == []
    ensures log[i].heard.Shown? && log[i].heard.value.cancel == Shown(false)
    ensures Checkpoint(log[i].row, Generation).Present? && Checkpoint(log[i].row, Review).Present?
    ensures AllReleasable(judges, plan, log[i].q.sections)
    ensures IsApproved(judges, plan, log[i].q.sections, identity, Checkpoint(log[i].row, Review).value)
    ensures CitationsAreQuoted(plan, log[i].q.sections, Checkpoint(log[i].row, Review).value)
  {
    var review := Checkpoint(log[i].row, Review).value;
    assert IsSafe(ExecutionOf(judges, plan, identity), log[i]);
    PassedExactly(judges, plan, Checkpoint(log[i].row, Generation).value, identity, review);
    ApprovedAreQuoted(judges, plan, log[i].q.sections, identity, review);
  }

  /** A finalising request on the exact wording: releasable, approved by the stored review, quoted, and not cancelled. */
  ghost predicate IsSoundFinal(judges: Judges, plan: Plan, identity: Json, a: Arrival)
    requires a.q.Finalize?
  {
    && plan.blocked == []
    && a.heard.Shown? && a.heard.value.cancel == Shown(false)
    && Checkpoint(a.row, Review).Present?
    && AllReleasable(judges, plan, a.q.sections)
    && IsApproved(judges, plan, a.q.sections, identity, Checkpoint(a.row, Review).value)
    && CitationsAreQuoted(plan, a.q.sections, Checkpoint(a.row, Review).value)
  }

  lemma {:induction false} FinalsAreSound(judges: Judges, plan: Plan, identity: Json, log: seq<Arrival>)
    requires AllSafe(ExecutionOf(judges, plan, identity), log) && NoRepeats(SectionKeys(plan.template.sections))
    ensures forall i :: 0 <= i < |log| && log[i].q.Finalize? ==> IsSoundFinal(judges, plan, identity, log[i])
  {
    forall i | 0 <= i < |log| && log[i].q.Finalize? ensures IsSoundFinal(judges, plan, identity, log[i]) {
      FinalisationIsSound(judges, plan, identity, log, i);
    }
  }

  lemma {:induction false} AllFinalsAgree(execution: Execution, log: seq<Arrival>, row: Row)
    requires AllSafe(execution, log) && InOrder(log, row)
    ensures forall i, j :: 0 <= i < j < |log| && log[i].q.Finalize? && log[j].q.Finalize? ==> log[i].q.sections == log[j].q.sections
  {
    forall i, j | 0 <= i < j < |log| && log[i].q.Finalize? && log[j].q.Finalize? ensures log[i].q.sections == log[j].q.sections {
      FinalisationsAgree(execution, log, row, i, j);
    }
  }

  /**
   The exact wording over any number of runs that may end or die anywhere: whatever is
   finalised is releasable, approved by the stored review, quoted from the accepted
   sources and not cancelled, and it is the same each time.
   */
  method ExactLifetime(db: Database, judges: Judges, plan: Plan, identity: Json, scripts: seq<(Script, Script)>)
    requires ValidRow(db.row) && db.log == [] && NoRepeats(SectionKeys(plan.template.sections))
    modifies db
    ensures forall i :: 0 <= i < |db.log| && db.log[i].q.Finalize? ==> IsSoundFinal(judges, plan, identity, db.log[i])
    ensures forall i, j :: 0 <= i < j < |db.log| && db.log[i].q.Finalize? && db.log[j].q.Finalize? ==> db.log[i].q.sections == db.log[j].q.sections
  {
    hide IsSafe, IsSoundFinal, Follows, ValidRow;
    var execution := ExecutionOf(judges, plan, identity);
    ExactWordingNeedsReview(judges, plan, identity);
    Lifetime(db, execution, scripts);
    FinalsAreSound(judges, plan, identity, db.log);
    AllFinalsAgree(execution, db.log, db.row);
  }

  /** Restarts cannot change the outcome: all finalising requests of all runs carry the same sections. */
  lemma {:induction false} FinalisationsAgree(execution: Execution, log: seq<Arrival>, row: Row, i: nat, j: nat)
    requires AllSafe(execution, log) && InOrder(log, row) && i < j < |log|
    requires log[i].q.Finalize? && log[j].q.Finalize?
    ensures log[i].q.sections == log[j].q.sections
  {
    assert IsSafe(execution, log[i]) && IsSafe(execution, log[j]);
    assert Follows(log[i].row, log[j].row);
    assert Checkpoint(log[j].row, Generation) == Checkpoint(log[i].row, Generation);
    assert Checkpoint(log[j].row, Review) == Checkpoint(log[i].row, Review);
  }

  /** A stage with a stored checkpoint is never dispatched again: the database's own guard against it never has to act on a leased request. */
  lemma {:induction false} LeasedRequestsNeverRedispatch(execution: Execution, log: seq<Arrival>, i: nat)
    requires AllSafe(execution, log) && i < |log| && log[i].q.Record? && HeldBy(log[i].row, log[i].q.owner)
    ensures Checkpoint(log[i].row, log[i].q.stage).Absent?
  {
    assert IsSafe(execution, log[i]);
  }

  /** Once a stage has a checkpoint, every later leased request of every run is for another stage. */
  lemma {:induction false} CheckpointsEndDispatch(execution: Execution, log: seq<Arrival>, row: Row, i: nat, j: nat, stage: Stage)
    requires AllSafe(execution, log) && InOrder(log, row) && i < j < |log|
    requires Checkpoint(log[i].row, stage).Present?
    requires log[j].q.Record? && log[j].q.stage == stage
    ensures !HeldBy(log[j].row, log[j].q.owner)
  {
    assert IsSafe(execution, log[j]);
    assert Follows(log[i].row, log[j].row);
  }

  /** A completion that returned for a success means that this very output is the stage's checkpoint. */
  lemma {:induction false} DurableSuccessIsCheckpoint(row: Row, stage: Stage, number: nat, request: nat, output: Json)
    requires ValidRow(row) && IsDurable(row, stage, number, request, Succeeded(output))
    requires IsValue(output) && (Checkpoint(row, stage).Present? ==> IsValue(Checkpoint(row, stage).value))
    ensures Checkpoint(row, stage).Present? && Same(Checkpoint(row, stage).value, output)
  {
    StoredSuccessIsCheckpoint(row, stage, number, request, output);
    CanonicalJsonIsFaithful(Checkpoint(row, stage).value, output);
  }

  lemma {:induction false} StoredSuccessIsCheckpoint(row: Row, stage: Stage, number: nat, request: nat, output: Json)
    requires ValidRow(row) && IsDurable(row, stage, number, request, Succeeded(output))
    ensures Checkpoint(row, stage).Present? && CanonicalJson(Checkpoint(row, stage).value) == CanonicalJson(output)
  {
    var attempts := Attempts(row, stage);
    if 1 <= number <= |attempts| && attempts[number - 1] == Attempt(request, Terminal(Succeeded(output))) {
      assert number - 1 == |attempts| - 1;
    }
  }
}
