/**
 The durable record of one captured operation, as the database functions that the
 runner calls maintain it (supabase/migrations), and the ways in which everyone
 else may change it between two calls of one runner.

 A lease token is a random value that only the claiming runner knows; here it is
 the name of that runner. A reply carries what the SQL of its function returns and,
 if the environment chooses so, the whole visible state of the record.
 */
module OperationStore {
  import opened Texts
  import opened JsonText
  import opened C = CanonicalJson
  import opened CapturedAssessment

  type Owner = nat

  datatype Status =
    | Accepted | Generating | Validating | Persisting | AwaitingCapacity | AwaitingClarification
    | RetryableFailure | TerminalFailure | Cancelled | ReadyForReview

  datatype Stage = Generation | Review

  /** What ended an attempt: a structured output, or a failure or cancellation. */
  datatype Result = Succeeded(output: Json) | Ended

  datatype Progress = Prepared | Terminal(result: Result)

  /** One provider attempt; `request` stands for its request hash and start time. */
  datatype Attempt = Attempt(request: nat, progress: Progress)

  datatype Lease = Free | Held(owner: Owner, live: bool)

  datatype Finality = NotFinal | FinalSections(sections: seq<SectionOutput>)

  datatype Row = Row(
    status: Status,
    revision: nat,
    lease: Lease,
    generation: seq<Attempt>,
    review: seq<Attempt>,
    cancelRequested: bool,
    expired: bool,
    documentMoved: bool,
    waitingStage: Stage,
    capacityReady: bool,
    finality: Finality)

  datatype Request =
    | Accept
    | Claim(owner: Owner, expected: nat)
    | Resume(owner: Owner, expected: nat)
    | Renew(owner: Owner)
    | Advance(owner: Owner, expected: nat, next: Status)
    | Record(owner: Owner, expected: nat, stage: Stage, request: nat)
    | Complete(owner: Owner, stage: Stage, number: nat, request: nat, result: Result)
    | Reconcile(owner: Owner)
    | Cancel(owner: Owner, expected: nat)
    | Defer(owner: Owner, expected: nat, stage: Stage)
    | Finalize(owner: Owner, expected: nat, sections: seq<SectionOutput>)
    | OwnerCancels(expected: nat)

  datatype Shown<T> = Hidden | Shown(value: T)

  datatype Reply = Reply(
    revision: nat,
    status: Shown<Status>,
    token: bool,
    cancel: Shown<bool>,
    generation: Shown<Optional>,
    review: Shown<Optional>,
    deferred: bool,
    number: nat)

  datatype Code = CancellationReconciliation | OtherCode

  datatype Response = Rejected(code: Code) | Served(row: Row, reply: Reply)

  // ----- reading a record -----

  predicate IsTerminal(status: Status) {
    status == ReadyForReview || status == TerminalFailure || status == Cancelled
  }

  function Attempts(row: Row, stage: Stage): seq<Attempt> {
    if stage == Generation then row.generation else row.review
  }

  function WithAttempts(row: Row, stage: Stage, attempts: seq<Attempt>): Row {
    if stage == Generation then row.(generation := attempts) else row.(review := attempts)
  }

  predicate IsPrepared(attempts: seq<Attempt>) {
    attempts != [] && attempts[|attempts| - 1].progress.Prepared?
  }

  /** The output of the attempt that succeeded; on valid records only the last attempt can have. */
  function LatestSuccess(attempts: seq<Attempt>): Optional {
    if attempts != [] && attempts[|attempts| - 1].progress.Terminal? && attempts[|attempts| - 1].progress.result.Succeeded?
    then Present(attempts[|attempts| - 1].progress.result.output)
    else Absent
  }

  function Checkpoint(row: Row, stage: Stage): Optional {
    LatestSuccess(Attempts(row, stage))
  }

  predicate HeldBy(row: Row, owner: Owner) {
    row.lease.Held? && row.lease.owner == owner
  }

  predicate LiveFor(row: Row, owner: Owner) {
    row.lease == Held(owner, true)
  }

  predicate HasPrepared(row: Row) {
    IsPrepared(row.generation) || IsPrepared(row.review)
  }

  /** captured_operation_transition_allowed. */
  predicate IsAllowed(from: Status, to: Status) {
    match from
    case Accepted => to in {AwaitingClarification, Generating, RetryableFailure, TerminalFailure, Cancelled}
    case AwaitingClarification => to in {Accepted, RetryableFailure, TerminalFailure, Cancelled}
    case Generating => to in {Validating, RetryableFailure, TerminalFailure, Cancelled}
    case Validating => to in {Persisting, RetryableFailure, TerminalFailure, Cancelled}
    case Persisting => to in {RetryableFailure, TerminalFailure, Cancelled}
    case RetryableFailure => to in {Accepted, Generating, TerminalFailure, Cancelled}
    case _ => false
  }

  function StatusOf(stage: Stage): Status {
    if stage == Generation then Generating else Validating
  }

  // ----- the database functions -----

  function Bare(row: Row): Reply {
    Reply(row.revision, Shown(row.status), false, Hidden, Hidden, Hidden, false, 0)
  }

  function Bump(row: Row): Row {
    row.(revision := row.revision + 1)
  }

  /** The trigger guard_captured_terminal_reconciliation on every update of the record. */
  function Update(before: Row, after: Row, reply: Reply -> Reply): Response {
    if IsTerminal(after.status) && HasPrepared(after) then Rejected(OtherCode)
    else if after.status == ReadyForReview && before.cancelRequested then Rejected(CancellationReconciliation)
    else Served(Bump(after), reply(Bare(Bump(after))))
  }

  function Plain(reply: Reply): Reply {
    reply
  }

  function WithToken(reply: Reply): Reply {
    reply.(token := true)
  }

  /** Ends the prepared attempt of a stage, if there is one. */
  function Close(attempts: seq<Attempt>): (r: seq<Attempt>)
    ensures |r| == |attempts| && LatestSuccess(r) == LatestSuccess(attempts) && !IsPrepared(r)
    ensures IsPrepared(attempts) ==> r[..|r| - 1] == attempts[..|r| - 1] && r[|r| - 1].progress == Terminal(Ended)
    ensures !IsPrepared(attempts) ==> r == attempts
  {
    if IsPrepared(attempts) then attempts[..|attempts| - 1] + [attempts[|attempts| - 1].(progress := Terminal(Ended))] else attempts
  }

  /** A record that waits for capacity holds no lease (a check on the table), so it cannot be claimed before it resumes. */
  function ServeClaim(row: Row, owner: Owner, expected: nat): Response {
    if row.revision != expected || IsTerminal(row.status) then Rejected(OtherCode)
    else if row.expired then
      Update(row, row.(
        generation := Close(row.generation), review := Close(row.review),
        status := if row.cancelRequested then Cancelled else TerminalFailure, lease := Free), Plain)
    else if row.status == AwaitingCapacity || (row.lease.Held? && row.lease.live && row.lease.owner != owner) then Rejected(OtherCode)
    else Update(row, row.(lease := Held(owner, true)), WithToken)
  }

  function ServeResume(row: Row, owner: Owner, expected: nat): Response {
    if row.revision != expected || row.status != AwaitingCapacity || row.cancelRequested || row.expired then Rejected(OtherCode)
    else if !row.capacityReady then Served(row, Bare(row).(deferred := true))
    else Update(row, row.(status := StatusOf(row.waitingStage), lease := Held(owner, true)), WithToken)
  }

  function ServeRenew(row: Row, owner: Owner): Response {
    if IsTerminal(row.status) || !LiveFor(row, owner) then Rejected(OtherCode)
    else Served(Bump(row), WithToken(Bare(Bump(row))).(cancel := Shown(row.cancelRequested)))
  }

  function ServeAdvance(row: Row, owner: Owner, expected: nat, next: Status): Response {
    if next == ReadyForReview || next == Cancelled || row.revision != expected || !LiveFor(row, owner) then Rejected(OtherCode)
    else if (row.expired && next != TerminalFailure) || !IsAllowed(row.status, next) then Rejected(OtherCode)
    else
      var released := next in {AwaitingClarification, AwaitingCapacity, RetryableFailure, TerminalFailure};
      Update(row, row.(status := next, lease := if released then Free else row.lease), Plain)
  }

  function ServeRecord(row: Row, owner: Owner, expected: nat, stage: Stage, request: nat): Response {
    var attempts := Attempts(row, stage);
    if IsPrepared(attempts) then
      if attempts[|attempts| - 1].request != request then Rejected(OtherCode)
      else Served(row, Bare(row).(status := Hidden, number := |attempts|))
    else if Checkpoint(row, stage).Present? then Rejected(OtherCode)
    else if row.revision != expected || !LiveFor(row, owner) || row.status != StatusOf(stage) then Rejected(OtherCode)
    else
      var after := Bump(WithAttempts(row, stage, attempts + [Attempt(request, Prepared)]));
      Served(after, Bare(after).(status := Hidden, number := |attempts| + 1))
  }

  function CompletionReply(row: Row, number: nat): Reply {
    WithToken(Bare(row)).(cancel := Shown(row.cancelRequested), number := number)
  }

  function ServeComplete(row: Row, owner: Owner, stage: Stage, number: nat, request: nat, result: Result): Response {
    var attempts := Attempts(row, stage);
    if !LiveFor(row, owner) || !(1 <= number <= |attempts|) || attempts[number - 1].request != request then Rejected(OtherCode)
    else if attempts[number - 1].progress.Terminal? then
      if attempts[number - 1].progress.result == result then Served(row, CompletionReply(row, number)) else Rejected(OtherCode)
    else if row.status != StatusOf(stage) then Rejected(OtherCode)
    else
      var after := Bump(WithAttempts(row, stage, attempts[number - 1 := Attempt(request, Terminal(result))]));
      Served(after, CompletionReply(after, number))
  }

  function ServeReconcile(row: Row, owner: Owner): Response {
    if !LiveFor(row, owner) || (IsPrepared(row.generation) && IsPrepared(row.review)) then Rejected(OtherCode)
    else if !HasPrepared(row) then Served(row, CompletionReply(row, 0))
    else
      var after := Bump(row.(generation := Close(row.generation), review := Close(row.review)));
      Served(after, CompletionReply(after, 0))
  }

  function ServeCancel(row: Row, owner: Owner, expected: nat): Response {
    if row.status == Cancelled then Served(row, Bare(row))
    else if row.revision != expected || IsTerminal(row.status) || (row.lease.Held? && row.lease.owner != owner) then Rejected(OtherCode)
    else Update(row, row.(status := Cancelled, cancelRequested := true, lease := Free), Plain)
  }

  function ServeDefer(row: Row, owner: Owner, expected: nat, stage: Stage): Response {
    if row.revision != expected || !LiveFor(row, owner) || row.status != StatusOf(stage) || row.cancelRequested || row.expired then Rejected(OtherCode)
    else Update(row, row.(status := AwaitingCapacity, waitingStage := stage, capacityReady := false, lease := Free), Plain)
  }

  function ServeFinalize(row: Row, owner: Owner, expected: nat, sections: seq<SectionOutput>): Response {
    if row.status == ReadyForReview then
      if row.finality == FinalSections(sections) then Served(row, Bare(row)) else Rejected(OtherCode)
    else if row.revision != expected || row.status != Persisting || !LiveFor(row, owner) then Rejected(OtherCode)
    else if !(Checkpoint(row, Generation).Present? || Checkpoint(row, Review).Present?) || row.documentMoved then Rejected(OtherCode)
    else Update(row, row.(status := ReadyForReview, finality := FinalSections(sections), lease := Free), Plain)
  }

  /** request_captured_document_cancellation: an intent while work is live, otherwise final. */
  function ServeOwnerCancels(row: Row, expected: nat): Response {
    if row.cancelRequested then Served(row, Bare(row))
    else if row.revision != expected || IsTerminal(row.status) then Rejected(OtherCode)
    else if (row.lease.Held? && row.lease.live) || HasPrepared(row) then Update(row, row.(cancelRequested := true), Plain)
    else Update(row, row.(status := Cancelled, cancelRequested := true, lease := Free), Plain)
  }

  function Serve(row: Row, q: Request): Response {
    match q
    case Accept => Served(row, Bare(row).(generation := Shown(Checkpoint(row, Generation)), review := Shown(Checkpoint(row, Review))))
    case Claim(owner, expected) => ServeClaim(row, owner, expected)
    case Resume(owner, expected) => ServeResume(row, owner, expected)
    case Renew(owner) => ServeRenew(row, owner)
    case Advance(owner, expected, next) => ServeAdvance(row, owner, expected, next)
    case Record(owner, expected, stage, request) => ServeRecord(row, owner, expected, stage, request)
    case Complete(owner, stage, number, request, result) => ServeComplete(row, owner, stage, number, request, result)
    case Reconcile(owner) => ServeReconcile(row, owner)
    case Cancel(owner, expected) => ServeCancel(row, owner, expected)
    case Defer(owner, expected, stage) => ServeDefer(row, owner, expected, stage)
    case Finalize(owner, expected, sections) => ServeFinalize(row, owner, expected, sections)
    case OwnerCancels(expected) => ServeOwnerCancels(row, expected)
  }

  /** The requests whose own replies say whether a cancellation was requested. */
  predicate ShowsCancellation(q: Request) {
    q.Renew? || q.Complete? || q.Reconcile?
  }

  /** The record after a request arrived. */
  function After(row: Row, q: Request): Row {
    match Serve(row, q) case Served(after, _) => after case Rejected(_) => row
  }

  /** A reply with the whole visible state of the record. */
  function Fill(reply: Reply, row: Row): Reply {
    reply.(
      status := Shown(row.status),
      cancel := Shown(row.cancelRequested),
      generation := Shown(Checkpoint(row, Generation)),
      review := Shown(Checkpoint(row, Review)))
  }

  // ----- everyone else -----

  datatype Event =
    | LeaseLapses | OperationExpires | CapacityOpens | DocumentMoves
    | Foreign(q: Request)

  predicate IsFrom(q: Request, owner: Owner) {
    match q
    case Accept => false
    case OwnerCancels(_) => false
    case _ => q.owner == owner
  }

  /** One thing that happens to the record without this runner; nobody else knows its token. */
  function Happen(row: Row, me: Owner, event: Event): Row {
    match event
    case LeaseLapses => if row.lease.Held? then row.(lease := Held(row.lease.owner, false)) else row
    case OperationExpires => row.(expired := true)
    case CapacityOpens => row.(capacityReady := true)
    case DocumentMoves => row.(documentMoved := true)
    case Foreign(q) => if IsFrom(q, me) then row else After(row, q)
  }

  function HappenAll(row: Row, me: Owner, events: seq<Event>): Row {
    if events == [] then row else Happen(HappenAll(row, me, events[..|events| - 1]), me, events[|events| - 1])
  }

  // ----- what every step keeps -----

  /** Only the latest attempt of a stage can be prepared or have succeeded. */
  predicate ValidAttempts(attempts: seq<Attempt>) {
    forall i :: 0 <= i < |attempts| - 1 ==> attempts[i].progress == Terminal(Ended)
  }

  predicate ValidRow(row: Row) {
    && ValidAttempts(row.generation)
    && ValidAttempts(row.review)
    && (row.finality.FinalSections? <==> row.status == ReadyForReview)
    && (IsTerminal(row.status) ==> !HasPrepared(row))
    && (row.status == ReadyForReview ==> !row.cancelRequested)
    && (row.status == AwaitingCapacity ==> row.lease.Free?)
  }

  /** Attempts only grow, an attempt that has ended stays as it is, and nothing follows a success. */
  predicate Extends(before: seq<Attempt>, after: seq<Attempt>) {
    && |before| <= |after|
    && (forall i :: 0 <= i < |before| ==>
          before[i].request == after[i].request && (before[i].progress.Terminal? ==> before[i] == after[i]))
    && (LatestSuccess(before).Present? ==> after == before)
  }

  /** The revision counts up, results are written once, and an unchanged revision means unchanged attempts. */
  predicate Follows(before: Row, after: Row) {
    && before.revision <= after.revision
    && Extends(before.generation, after.generation)
    && Extends(before.review, after.review)
    && (before.revision == after.revision ==> before.generation == after.generation && before.review == after.review)
    && (before.finality.FinalSections? ==> after.finality == before.finality)
  }

  lemma {:induction false} ExtendsIsTransitive(a: seq<Attempt>, b: seq<Attempt>, c: seq<Attempt>)
    requires Extends(a, b) && Extends(b, c)
    ensures Extends(a, c)
  {
  }

  lemma {:induction false} FollowsItself(row: Row)
    ensures Follows(row, row)
  {
  }

  lemma {:induction false} FollowsIsTransitive(a: Row, b: Row, c: Row)
    requires Follows(a, b) && Follows(b, c)
    ensures Follows(a, c)
  {
    ExtendsIsTransitive(a.generation, b.generation, c.generation);
    ExtendsIsTransitive(a.review, b.review, c.review);
  }

  lemma {:induction false} ExtendsItself(attempts: seq<Attempt>)
    ensures Extends(attempts, attempts)
  {
  }

  lemma {:induction false} CloseExtends(attempts: seq<Attempt>)
    requires ValidAttempts(attempts)
    ensures ValidAttempts(Close(attempts)) && Extends(attempts, Close(attempts))
  {
  }

  lemma {:induction false} AppendExtends(attempts: seq<Attempt>, request: nat)
    requires ValidAttempts(attempts) && !IsPrepared(attempts) && LatestSuccess(attempts).Absent?
    ensures ValidAttempts(attempts + [Attempt(request, Prepared)]) && Extends(attempts, attempts + [Attempt(request, Prepared)])
  {
  }

  lemma {:induction false} CompleteExtends(attempts: seq<Attempt>, k: nat, result: Result)
    requires ValidAttempts(attempts) && k < |attempts| && attempts[k].progress.Prepared?
    ensures k == |attempts| - 1
    ensures var after := attempts[k := Attempt(attempts[k].request, Terminal(result))];
            ValidAttempts(after) && Extends(attempts, after) && !IsPrepared(after)
            && LatestSuccess(after) == if result.Succeeded? then Present(result.output) else Absent
  {
  }

  predicate Keeps(row: Row, q: Request) {
    ValidRow(After(row, q)) && Follows(row, After(row, q))
  }

  lemma {:induction false} ClaimKeeps(row: Row, q: Request)
    requires ValidRow(row) && (q.Claim? || q.Reconcile?)
    ensures Keeps(row, q)
  {
    hide ValidAttempts, Extends, LatestSuccess, Close, ServeResume, ServeRenew, ServeAdvance, ServeRecord,
         ServeComplete, ServeCancel, ServeDefer, ServeFinalize, ServeOwnerCancels;
    ExtendsItself(row.generation);
    ExtendsItself(row.review);
    CloseExtends(row.generation);
    CloseExtends(row.review);
  }

  lemma {:induction false} RecordKeeps(row: Row, q: Request)
    requires ValidRow(row) && q.Record?
    ensures Keeps(row, q)
  {
    hide ValidAttempts, Extends, LatestSuccess, IsAllowed, ServeClaim, ServeResume, ServeRenew, ServeAdvance,
         ServeComplete, ServeReconcile, ServeCancel, ServeDefer, ServeFinalize, ServeOwnerCancels;
    var attempts := Attempts(row, q.stage);
    ExtendsItself(row.generation);
    ExtendsItself(row.review);
    if !IsPrepared(attempts) && LatestSuccess(attempts).Absent? {
      AppendExtends(attempts, q.request);
    }
  }

  lemma {:induction false} CompleteKeeps(row: Row, q: Request)
    requires ValidRow(row) && q.Complete?
    ensures Keeps(row, q)
  {
    hide ValidAttempts, Extends;
    var attempts := Attempts(row, q.stage);
    ExtendsItself(row.generation);
    ExtendsItself(row.review);
    if 1 <= q.number <= |attempts| && attempts[q.number - 1].progress.Prepared? {
      CompleteExtends(attempts, q.number - 1, q.result);
    }
  }

  lemma {:induction false} AdvanceKeeps(row: Row, q: Request)
    requires ValidRow(row) && (q.Advance? || q.Resume? || q.Renew? || q.Accept?)
    ensures Keeps(row, q)
  {
    hide ValidAttempts, Extends, LatestSuccess, IsPrepared, ServeClaim, ServeRecord, ServeComplete, ServeReconcile,
         ServeCancel, ServeDefer, ServeFinalize, ServeOwnerCancels;
    ExtendsItself(row.generation);
    ExtendsItself(row.review);
  }

  lemma {:induction false} EndingKeeps(row: Row, q: Request)
    requires ValidRow(row) && (q.Cancel? || q.Defer? || q.Finalize? || q.OwnerCancels?)
    ensures Keeps(row, q)
  {
    hide ValidAttempts, Extends, LatestSuccess, IsPrepared, IsAllowed, ServeClaim, ServeResume, ServeRenew,
         ServeAdvance, ServeRecord, ServeComplete, ServeReconcile;
    ExtendsItself(row.generation);
    ExtendsItself(row.review);
  }

  /** Every request, from anyone, keeps the record valid and its results written once. */
  lemma {:induction false} ServeKeeps(row: Row, q: Request)
    requires ValidRow(row)
    ensures ValidRow(After(row, q)) && Follows(row, After(row, q))
  {
    match q
    case Claim(_, _) => ClaimKeeps(row, q);
    case Reconcile(_) => ClaimKeeps(row, q);
    case Record(_, _, _, _) => RecordKeeps(row, q);
    case Complete(_, _, _, _, _) => CompleteKeeps(row, q);
    case Cancel(_, _) => EndingKeeps(row, q);
    case Defer(_, _, _) => EndingKeeps(row, q);
    case Finalize(_, _, _) => EndingKeeps(row, q);
    case OwnerCancels(_) => EndingKeeps(row, q);
    case _ => AdvanceKeeps(row, q);
  }

  lemma {:induction false} HappenKeeps(row: Row, me: Owner, event: Event)
    requires ValidRow(row)
    ensures ValidRow(Happen(row, me, event)) && Follows(row, Happen(row, me, event))
  {
    if event.Foreign? {
      ServeKeeps(row, event.q);
    }
  }

  lemma {:induction false} HappenAllKeeps(row: Row, me: Owner, events: seq<Event>)
    requires ValidRow(row)
    ensures ValidRow(HappenAll(row, me, events)) && Follows(row, HappenAll(row, me, events))
  {
    if events != [] {
      var front := events[..|events| - 1];
      HappenAllKeeps(row, me, front);
      HappenKeeps(HappenAll(row, me, front), me, events[|events| - 1]);
      FollowsIsTransitive(row, HappenAll(row, me, front), HappenAll(row, me, events));
    }
  }

  /** Only recording and completing an attempt can change a checkpoint. */
  lemma {:induction false} OthersKeepCheckpoints(row: Row, q: Request, stage: Stage)
    requires !q.Record? && !q.Complete?
    ensures Checkpoint(After(row, q), stage) == Checkpoint(row, stage)
  {
    hide LatestSuccess, Close, IsPrepared, IsAllowed, HasPrepared, IsTerminal, ServeRecord, ServeComplete;
  }

  lemma {:induction false} RecordKeepsCheckpoints(row: Row, q: Request, stage: Stage)
    requires q.Record?
    ensures Checkpoint(After(row, q), stage) == Checkpoint(row, stage)
  {
    hide ServeClaim, ServeResume, ServeRenew, ServeAdvance, ServeComplete, ServeReconcile, ServeCancel, ServeDefer,
         ServeFinalize, ServeOwnerCancels;
  }

  lemma {:induction false} CompleteStoresSuccess(row: Row, q: Request, stage: Stage)
    requires q.Complete? && !MayStore(q, stage)
    ensures Checkpoint(After(row, q), stage) == Checkpoint(row, stage)
  {
    hide ServeClaim, ServeResume, ServeRenew, ServeAdvance, ServeRecord, ServeReconcile, ServeCancel, ServeDefer,
         ServeFinalize, ServeOwnerCancels;
  }

  /** Attempts are completed only by whoever holds the lease. */
  lemma {:induction false} CompletionNeedsLease(row: Row, q: Request)
    requires q.Complete?
    ensures LiveFor(row, q.owner) || After(row, q) == row
  {
    hide LatestSuccess, ServeClaim, ServeResume, ServeRenew, ServeAdvance, ServeRecord, ServeReconcile, ServeCancel,
         ServeDefer, ServeFinalize, ServeOwnerCancels;
  }

  /** A lease is got only by asking for it. */
  lemma {:induction false} LeaseIsAskedFor(row: Row, q: Request, me: Owner)
    requires HeldBy(After(row, q), me)
    ensures HeldBy(row, me) || ((q.Claim? || q.Resume?) && q.owner == me)
  {
    hide LatestSuccess, Close, IsPrepared, IsAllowed, HasPrepared, IsTerminal;
  }

  /** The lease fences: while a runner still holds it, nobody else has changed a checkpoint. */
  lemma {:induction false} ForeignersAreFenced(row: Row, q: Request, me: Owner, stage: Stage)
    requires !IsFrom(q, me) && HeldBy(After(row, q), me)
    ensures HeldBy(row, me) && Checkpoint(After(row, q), stage) == Checkpoint(row, stage)
  {
    hide After, Checkpoint;
    LeaseIsAskedFor(row, q, me);
    if q.Complete? {
      CompletionNeedsLease(row, q);
    } else if q.Record? {
      RecordKeepsCheckpoints(row, q, stage);
    } else {
      OthersKeepCheckpoints(row, q, stage);
    }
  }

  lemma {:induction false} HappenAllIsFenced(row: Row, me: Owner, events: seq<Event>, stage: Stage)
    requires HeldBy(HappenAll(row, me, events), me)
    ensures HeldBy(row, me) && Checkpoint(HappenAll(row, me, events), stage) == Checkpoint(row, stage)
  {
    hide After, LatestSuccess;
    if events != [] {
      var front, last := events[..|events| - 1], events[|events| - 1];
      var middle := HappenAll(row, me, front);
      if last.Foreign? && !IsFrom(last.q, me) {
        ForeignersAreFenced(middle, last.q, me, stage);
      }
      HappenAllIsFenced(row, me, front, stage);
    }
  }

  /** Whether a request can be the one that stores a result for a stage. */
  predicate MayStore(q: Request, stage: Stage) {
    q.Complete? && q.stage == stage && q.result.Succeeded?
  }

  /** A runner's own requests open no lease but by claiming, and store no result but by completing a success. */
  lemma {:induction false} OwnRequestsKeepCheckpoints(row: Row, q: Request, me: Owner, stage: Stage)
    requires IsFrom(q, me) || q.Accept?
    requires !MayStore(q, stage)
    ensures Checkpoint(After(row, q), stage) == Checkpoint(row, stage)
    ensures !q.Claim? && !q.Resume? && HeldBy(After(row, q), me) ==> HeldBy(row, me)
  {
    hide After, Checkpoint, MayStore, HeldBy;
    if q.Complete? {
      CompleteStoresSuccess(row, q, stage);
    } else if q.Record? {
      RecordKeepsCheckpoints(row, q, stage);
    } else {
      OthersKeepCheckpoints(row, q, stage);
    }
    if HeldBy(After(row, q), me) {
      LeaseIsAskedFor(row, q, me);
    }
  }

  /** A claim is only granted to a runner that has seen the current revision. */
  lemma {:induction false} GrantsNeedCurrentRevision(row: Row, q: Request)
    requires (q.Claim? || q.Resume?) && Serve(row, q).Served? && Serve(row, q).reply.token
    ensures row.revision == q.expected && HeldBy(After(row, q), q.owner)
    ensures forall stage :: Checkpoint(After(row, q), stage) == Checkpoint(row, stage)
  {
  }

  /** What a reply shows is true of the record that it answers for. */
  predicate IsTrueOf(reply: Reply, row: Row) {
    && reply.revision == row.revision
    && (reply.status.Shown? ==> reply.status.value == row.status)
    && (reply.cancel.Shown? ==> reply.cancel.value == row.cancelRequested)
    && (reply.generation.Shown? ==> reply.generation.value == Checkpoint(row, Generation))
    && (reply.review.Shown? ==> reply.review.value == Checkpoint(row, Review))
  }

  lemma {:induction false} RepliesAreTrue(row: Row, q: Request)
    requires Serve(row, q).Served?
    ensures IsTrueOf(Serve(row, q).reply, After(row, q)) && IsTrueOf(Fill(Serve(row, q).reply, After(row, q)), After(row, q))
  {
    hide IsAllowed, HasPrepared, IsTerminal, LatestSuccess, Close, IsPrepared;
  }
}
