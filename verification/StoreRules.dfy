/**
 What the database functions of a captured operation promise together
 (supabase/migrations): who is granted a lease, what a live lease shuts out and how it
 can be lost all the same, what a stale request changes, and how records end.
 */
module StoreRules {
  import A = CapturedAssessment
  import opened OperationStore

  // ----- revisions -----

  predicate NamesRevision(q: Request) {
    !q.Accept? && !q.Renew? && !q.Complete? && !q.Reconcile?
  }

  /** A request that names another revision than the current one changes nothing. */
  lemma {:induction false} StaleChangesNothing(row: Row, q: Request)
    requires NamesRevision(q) && q.expected != row.revision
    ensures After(row, q) == row
  {
    hide LatestSuccess, Close, IsPrepared, IsAllowed, HasPrepared, IsTerminal, LiveFor;
  }

  // ----- claims -----

  predicate IsClaimable(row: Row, expected: nat) {
    row.revision == expected && row.status !in {ReadyForReview, TerminalFailure, Cancelled}
  }

  predicate IsHeldByAnother(row: Row, owner: Owner) {
    row.lease.Held? && row.lease.live && row.lease.owner != owner
  }

  /** The same attempts, where those under way have ended without a result. */
  predicate EndsWork(before: seq<Attempt>, after: seq<Attempt>) {
    && |after| == |before|
    && forall i :: 0 <= i < |before| ==>
         after[i] == if before[i].progress.Prepared? then Attempt(before[i].request, Terminal(Ended)) else before[i]
  }

  lemma {:induction false} CloseEndsWork(attempts: seq<Attempt>)
    requires ValidAttempts(attempts)
    ensures EndsWork(attempts, Close(attempts))
  {
  }

  /**
   A claim is granted exactly at the current revision of a record that has neither ended
   nor expired, does not wait for capacity and is held by nobody else; it changes the lease
   and nothing else.
   */
  lemma {:induction false} ClaimExactly(row: Row, owner: Owner, expected: nat)
    ensures var r := Serve(row, Claim(owner, expected));
      && (r.Served? && r.reply.token <==>
            IsClaimable(row, expected) && !row.expired && row.status != AwaitingCapacity && !IsHeldByAnother(row, owner))
      && (r.Served? && r.reply.token ==> r.row == row.(lease := Held(owner, true), revision := row.revision + 1))
  {
    hide LatestSuccess, Close;
  }

  /** A claim of an expired record ends what is under way, and the record with it, whoever holds it. */
  lemma {:induction false} ExpiredClaimExactly(row: Row, owner: Owner, expected: nat)
    requires ValidRow(row)
    ensures var r := Serve(row, Claim(owner, expected));
      && (r.Served? && !r.reply.token <==> IsClaimable(row, expected) && row.expired)
      && (r.Served? && !r.reply.token ==>
            && EndsWork(row.generation, r.row.generation) && EndsWork(row.review, r.row.review)
            && r.row == row.(
                 generation := r.row.generation, review := r.row.review, lease := Free, revision := row.revision + 1,
                 status := if row.cancelRequested then Cancelled else TerminalFailure))
  {
    hide LatestSuccess, Close, ValidAttempts, EndsWork;
    CloseEndsWork(row.generation);
    CloseEndsWork(row.review);
  }

  // ----- what a lease shuts out -----

  /** A live lease is lost to someone else's request exactly by a claim that ends the expired record. */
  lemma {:induction false} LeaseIsLostExactly(row: Row, q: Request, me: Owner)
    requires ValidRow(row) && LiveFor(row, me) && !IsFrom(q, me)
    ensures !LiveFor(After(row, q), me) <==> q.Claim? && IsClaimable(row, q.expected) && row.expired
  {
    hide LatestSuccess, Close, IsAllowed, ValidAttempts;
  }

  /** A runner at work: its lease is live, and the record has neither ended nor expired. */
  predicate IsAtWork(row: Row, me: Owner) {
    ValidRow(row) && LiveFor(row, me) && !IsTerminal(row.status) && !row.expired
  }

  predicate AsksToCancel(row: Row, q: Request) {
    q.OwnerCancels? && q.expected == row.revision && !row.cancelRequested
  }

  /** While a runner is at work, all that anyone else can do is ask for a cancellation, once. */
  lemma {:induction false} OthersOnlyAsk(row: Row, q: Request, me: Owner)
    requires IsAtWork(row, me) && !IsFrom(q, me)
    ensures After(row, q) == if AsksToCancel(row, q) then row.(cancelRequested := true, revision := row.revision + 1) else row
  {
    hide LatestSuccess, Close, IsAllowed;
  }

  /** The record is as it was, but for the flags that others set and the revision of one request to cancel. */
  predicate IsUndisturbed(before: Row, after: Row) {
    && after == before.(
         revision := after.revision, cancelRequested := after.cancelRequested,
         documentMoved := after.documentMoved, capacityReady := after.capacityReady)
    && after.revision == before.revision + (if after.cancelRequested && !before.cancelRequested then 1 else 0)
    && (before.cancelRequested ==> after.cancelRequested)
  }

  predicate IsQuiet(event: Event, me: Owner) {
    event.CapacityOpens? || event.DocumentMoves? || (event.Foreign? && !IsFrom(event.q, me))
  }

  /**
   Mutual exclusion: whatever others do while a runner is at work, as long as its lease
   does not lapse and the record does not expire, the runner finds the status, both lists
   of attempts and the lease as it left them.
   */
  lemma {:induction false} LeaseExcludes(row: Row, me: Owner, events: seq<Event>)
    requires IsAtWork(row, me)
    requires forall i :: 0 <= i < |events| ==> IsQuiet(events[i], me)
    ensures IsUndisturbed(row, HappenAll(row, me, events))
  {
    hide After;
    if events != [] {
      var front, last := events[..|events| - 1], events[|events| - 1];
      LeaseExcludes(row, me, front);
      if last.Foreign? {
        OthersOnlyAsk(HappenAll(row, me, front), last.q, me);
      }
    }
  }

  /** The requests by which work goes on. */
  predicate IsWork(q: Request) {
    q.Renew? || q.Advance? || q.Record? || q.Complete? || q.Reconcile? || q.Defer? || q.Finalize?
  }

  /** Only the holder of a live lease gets any work done. */
  lemma {:induction false} WorkNeedsLease(row: Row, q: Request)
    requires IsWork(q) && After(row, q) != row
    ensures LiveFor(row, q.owner)
  {
    hide LatestSuccess, Close, IsAllowed;
  }

  /** A lease that has lapsed lets anyone claim, but lets no work through and no one else cancel. */
  lemma {:induction false} LapsedLeaseExactly(row: Row, me: Owner, other: Owner, expected: nat)
    requires row.lease.Held? && row.lease.owner != other && !row.expired
    ensures var lapsed := Happen(row, me, LeaseLapses);
      && lapsed == row.(lease := Held(row.lease.owner, false))
      && (Serve(lapsed, Claim(other, expected)).Served? <==> IsClaimable(row, expected) && row.status != AwaitingCapacity)
      && (row.status != Cancelled ==> Serve(lapsed, Cancel(other, expected)).Rejected?)
      && forall q :: IsWork(q) ==> After(lapsed, q) == lapsed
  {
    hide LatestSuccess, Close, IsPrepared, HasPrepared, After;
    var lapsed := Happen(row, me, LeaseLapses);
    forall q | IsWork(q) ensures After(lapsed, q) == lapsed {
      if After(lapsed, q) != lapsed {
        WorkNeedsLease(lapsed, q);
      }
    }
  }

  // ----- work on attempts -----

  /** The one status in which a stage is worked on. */
  predicate IsInStage(row: Row, stage: Stage) {
    (stage == Generation && row.status == Generating) || (stage == Review && row.status == Validating)
  }

  predicate SucceededBefore(attempts: seq<Attempt>) {
    exists i :: 0 <= i < |attempts| && attempts[i].progress.Terminal? && attempts[i].progress.result.Succeeded?
  }

  predicate HasOpen(attempts: seq<Attempt>) {
    exists i :: 0 <= i < |attempts| && attempts[i].progress.Prepared?
  }

  lemma {:induction false} AttemptsExactly(attempts: seq<Attempt>)
    requires ValidAttempts(attempts)
    ensures SucceededBefore(attempts) <==> LatestSuccess(attempts).Present?
    ensures HasOpen(attempts) <==> IsPrepared(attempts)
  {
    if i :| 0 <= i < |attempts| && attempts[i].progress != Terminal(Ended) {
      assert i == |attempts| - 1;
    }
  }

  /**
   An attempt is recorded exactly for the holder of a live lease at the current revision, in
   the status of its stage, while none is under way and none has succeeded; it is added at
   the end. The attempt that is under way is only named again.
   */
  lemma {:induction false} RecordExactly(row: Row, owner: Owner, expected: nat, stage: Stage, request: nat)
    requires ValidRow(row)
    ensures var r, attempts := Serve(row, Record(owner, expected, stage, request)), Attempts(row, stage);
      if HasOpen(attempts) then
        && (r.Served? <==> attempts[|attempts| - 1].request == request)
        && (r.Served? ==> r.row == row && r.reply.number == |attempts|)
      else
        && (r.Served? <==> !SucceededBefore(attempts) && row.revision == expected && LiveFor(row, owner) && IsInStage(row, stage))
        && (r.Served? ==>
              && r.row == WithAttempts(row, stage, attempts + [Attempt(request, Prepared)]).(revision := row.revision + 1)
              && r.reply.number == |attempts| + 1)
  {
    AttemptsExactly(Attempts(row, stage));
  }

  /**
   A result is written exactly by the holder of a live lease, for the attempt that it names,
   in the status of its stage; the same result is acknowledged again, another one is refused.
   */
  lemma {:induction false} CompleteExactly(row: Row, owner: Owner, stage: Stage, number: nat, request: nat, result: Result)
    ensures var r, attempts := Serve(row, Complete(owner, stage, number, request, result)), Attempts(row, stage);
      && (r.Served? <==>
            && LiveFor(row, owner) && 1 <= number <= |attempts| && attempts[number - 1].request == request
            && if attempts[number - 1].progress.Prepared? then IsInStage(row, stage) else attempts[number - 1].progress == Terminal(result))
      && (r.Served? ==>
            r.row == if attempts[number - 1].progress.Prepared?
                     then WithAttempts(row, stage, attempts[number - 1 := Attempt(request, Terminal(result))]).(revision := row.revision + 1)
                     else row)
  {
  }

  /** Reconciling ends the one attempt that is under way, if there is one, for the holder of a live lease. */
  lemma {:induction false} ReconcileExactly(row: Row, owner: Owner)
    requires ValidRow(row)
    ensures var r := Serve(row, Reconcile(owner));
      && (r.Served? <==> LiveFor(row, owner) && !(HasOpen(row.generation) && HasOpen(row.review)))
      && (r.Served? ==>
            && EndsWork(row.generation, r.row.generation) && EndsWork(row.review, r.row.review)
            && r.row == row.(generation := r.row.generation, review := r.row.review,
                 revision := row.revision + if HasOpen(row.generation) || HasOpen(row.review) then 1 else 0))
  {
    hide LatestSuccess, Close, ValidAttempts, EndsWork, IsPrepared, HasOpen, SucceededBefore;
    AttemptsExactly(row.generation);
    AttemptsExactly(row.review);
    CloseEndsWork(row.generation);
    CloseEndsWork(row.review);
    NothingToEnd(row);
  }

  lemma {:induction false} NothingToEnd(row: Row)
    ensures !IsPrepared(row.generation) ==> Close(row.generation) == row.generation
    ensures !IsPrepared(row.review) ==> Close(row.review) == row.review
    ensures ValidAttempts(row.generation) && !IsPrepared(row.generation) ==> EndsWork(row.generation, row.generation)
    ensures ValidAttempts(row.review) && !IsPrepared(row.review) ==> EndsWork(row.review, row.review)
  {
  }

  // ----- moving on -----

  /** The moves that the transition table allows, by what they leave. */
  predicate IsMove(from: Status, to: Status) {
    || (to in {RetryableFailure, TerminalFailure} && from !in {AwaitingCapacity, ReadyForReview, TerminalFailure, Cancelled} && from != to)
    || (to == AwaitingClarification && from == Accepted)
    || (to == Accepted && from in {AwaitingClarification, RetryableFailure})
    || (to == Generating && from in {Accepted, RetryableFailure})
    || (to == Validating && from == Generating)
    || (to == Persisting && from == Validating)
  }

  /** An advance is made exactly by the holder of a live lease at the current revision, along the table; an expired record only fails. */
  lemma {:induction false} AdvanceExactly(row: Row, owner: Owner, expected: nat, next: Status)
    ensures var r := Serve(row, Advance(owner, expected, next));
      && (r.Served? <==>
            && row.revision == expected && LiveFor(row, owner) && IsMove(row.status, next)
            && (row.expired ==> next == TerminalFailure) && (next == TerminalFailure ==> !HasPrepared(row)))
      && (r.Served? ==> r.row == row.(status := next, revision := row.revision + 1,
            lease := if next in {Accepted, Generating, Validating, Persisting} then row.lease else Free))
  {
    hide LatestSuccess, IsPrepared;
  }

  /** A wait for capacity gives the lease back and remembers the stage; it resumes that stage once capacity is there. */
  lemma {:induction false} DeferExactly(row: Row, owner: Owner, expected: nat, stage: Stage)
    ensures var r := Serve(row, Defer(owner, expected, stage));
      && (r.Served? <==> row.revision == expected && LiveFor(row, owner) && IsInStage(row, stage) && !row.cancelRequested && !row.expired)
      && (r.Served? ==> r.row == row.(
            status := AwaitingCapacity, waitingStage := stage, capacityReady := false, lease := Free, revision := row.revision + 1))
  {
    hide LatestSuccess, IsPrepared;
  }

  lemma {:induction false} ResumeExactly(row: Row, owner: Owner, expected: nat)
    ensures var r := Serve(row, Resume(owner, expected));
      && (r.Served? <==> row.revision == expected && row.status == AwaitingCapacity && !row.cancelRequested && !row.expired)
      && (r.Served? && !row.capacityReady ==> r.row == row && r.reply.deferred)
      && (r.Served? && row.capacityReady ==>
            && r.reply.token && IsInStage(r.row, row.waitingStage)
            && r.row == row.(status := r.row.status, lease := Held(owner, true), revision := row.revision + 1))
  {
    hide LatestSuccess, IsPrepared;
  }

  /**
   A document is finalised exactly once: by the holder of a live lease at the current revision,
   with a result to its name, an unmoved document, nothing under way and no request to cancel.
   The same sections are acknowledged again.
   */
  lemma {:induction false} FinalizeExactly(row: Row, owner: Owner, expected: nat, sections: seq<A.SectionOutput>)
    requires ValidRow(row)
    ensures var r := Serve(row, Finalize(owner, expected, sections));
      if row.status == ReadyForReview then
        (r.Served? <==> row.finality == FinalSections(sections)) && (r.Served? ==> r.row == row)
      else
        && (r.Served? <==>
              && row.revision == expected && LiveFor(row, owner) && row.status == Persisting && !row.documentMoved && !row.cancelRequested
              && !HasPrepared(row) && (SucceededBefore(row.generation) || SucceededBefore(row.review)))
        && (r.Served? ==> r.row == row.(
              status := ReadyForReview, finality := FinalSections(sections), lease := Free, revision := row.revision + 1))
  {
    hide ValidAttempts, SucceededBefore, LatestSuccess, IsPrepared;
    AttemptsExactly(row.generation);
    AttemptsExactly(row.review);
  }

  /** A renewal is granted to the holder of a live lease until the record ends, and shows whether a cancellation was requested. */
  lemma {:induction false} RenewExactly(row: Row, owner: Owner)
    ensures var r := Serve(row, Renew(owner));
      && (r.Served? <==> LiveFor(row, owner) && row.status !in {ReadyForReview, TerminalFailure, Cancelled})
      && (r.Served? ==> r.row == row.(revision := row.revision + 1) && r.reply.cancel == Shown(row.cancelRequested))
  {
  }

  /** Whoever holds the lease, live or not, or anyone if nobody does, may cancel a record with nothing under way. */
  lemma {:induction false} CancelExactly(row: Row, owner: Owner, expected: nat)
    ensures var r := Serve(row, Cancel(owner, expected));
      if row.status == Cancelled then r.Served? && r.row == row
      else
        && (r.Served? <==> IsClaimable(row, expected) && (row.lease.Free? || row.lease.owner == owner) && !HasPrepared(row))
        && (r.Served? ==> r.row == row.(status := Cancelled, cancelRequested := true, lease := Free, revision := row.revision + 1))
  {
    hide LatestSuccess, IsPrepared;
  }

  // ----- how records end -----

  /** A record that has ended and is free stays exactly as it is. */
  lemma {:induction false} EndedIsFrozen(row: Row, q: Request)
    requires IsTerminal(row.status) && row.lease == Free
    ensures After(row, q) == row
  {
    hide LatestSuccess, Close, IsAllowed;
  }

  /** What a record can become in one step, and by which request. */
  predicate MayBecome(row: Row, q: Request, status: Status) {
    match status
    case Generating => (q.Advance? && row.status in {Accepted, RetryableFailure}) || (q.Resume? && row.waitingStage == Generation)
    case Validating => (q.Advance? && row.status == Generating) || (q.Resume? && row.waitingStage == Review)
    case Persisting => q.Advance? && row.status == Validating
    case ReadyForReview => q.Finalize? && row.status == Persisting && !row.cancelRequested && !row.documentMoved
    case Cancelled => q.Cancel? || q.OwnerCancels? || (q.Claim? && row.expired && row.cancelRequested)
    case TerminalFailure => q.Advance? || (q.Claim? && row.expired && !row.cancelRequested)
    case RetryableFailure => q.Advance?
    case AwaitingClarification => q.Advance? && row.status == Accepted
    case AwaitingCapacity => q.Defer? && !row.cancelRequested && row.status in {Generating, Validating}
    case Accepted => q.Advance? && row.status in {AwaitingClarification, RetryableFailure}
  }

  /**
   What every request keeps. What it changes, it changes in one step of the revision.
   Statuses climb the ladder: wording is generated before it is reviewed, reviewed before
   it is kept, and kept before it is final. Whatever ends the record leaves it free and with
   nothing under way. A request to cancel is never withdrawn, and what was to be cancelled
   does not become final. An expired record only ends.
   */
  predicate IsOrderly(row: Row, q: Request, after: Row) {
    && (after == row || after.revision == row.revision + 1)
    && (after.status != row.status ==> MayBecome(row, q, after.status))
    && (!IsTerminal(row.status) && IsTerminal(after.status) ==> after.lease == Free && !HasPrepared(after))
    && (row.cancelRequested ==> after.cancelRequested)
    && (row.expired && after.status != row.status ==> IsTerminal(after.status))
  }

  lemma {:induction false} ClaimsAreOrderly(row: Row, q: Request)
    requires q.Claim?
    ensures IsOrderly(row, q, After(row, q))
  {
    hide LatestSuccess, IsAllowed, LiveFor, ServeResume, ServeRenew, ServeAdvance, ServeRecord, ServeComplete, ServeReconcile,
         ServeCancel, ServeDefer, ServeFinalize, ServeOwnerCancels;
  }

  lemma {:induction false} AdvancesAreOrderly(row: Row, q: Request)
    requires q.Advance? || q.Resume? || q.Renew? || q.Accept?
    ensures IsOrderly(row, q, After(row, q))
  {
    hide LatestSuccess, IsPrepared, LiveFor, ServeClaim, ServeRecord, ServeComplete, ServeReconcile, ServeCancel, ServeDefer,
         ServeFinalize, ServeOwnerCancels;
  }

  lemma {:induction false} AttemptsAreOrderly(row: Row, q: Request)
    requires q.Record? || q.Complete? || q.Reconcile?
    ensures IsOrderly(row, q, After(row, q))
  {
    hide LatestSuccess, IsPrepared, HasPrepared, IsTerminal, LiveFor, ServeClaim, ServeResume, ServeRenew, ServeAdvance,
         ServeCancel, ServeDefer, ServeFinalize, ServeOwnerCancels;
  }

  lemma {:induction false} EndingsAreOrderly(row: Row, q: Request)
    requires q.Cancel? || q.Defer? || q.Finalize? || q.OwnerCancels?
    ensures IsOrderly(row, q, After(row, q))
  {
    hide LatestSuccess, IsPrepared, IsAllowed, LiveFor, ServeClaim, ServeResume, ServeRenew, ServeAdvance, ServeRecord, ServeComplete,
         ServeReconcile;
  }

  /** Every request, from anyone and on any record, is orderly. */
  lemma {:induction false} StepsAreOrderly(row: Row, q: Request)
    ensures IsOrderly(row, q, After(row, q))
  {
    hide IsOrderly, After;
    match q
    case Claim(_, _) => ClaimsAreOrderly(row, q);
    case Reconcile(_) => AttemptsAreOrderly(row, q);
    case Cancel(_, _) => EndingsAreOrderly(row, q);
    case Record(_, _, _, _) => AttemptsAreOrderly(row, q);
    case Complete(_, _, _, _, _) => AttemptsAreOrderly(row, q);
    case Defer(_, _, _) => EndingsAreOrderly(row, q);
    case Finalize(_, _, _) => EndingsAreOrderly(row, q);
    case OwnerCancels(_) => EndingsAreOrderly(row, q);
    case _ => AdvancesAreOrderly(row, q);
  }

  /** An owner's request cancels at once where nobody is at work, and is an intent where someone is. */
  lemma {:induction false} OwnerCancelsExactly(row: Row, expected: nat)
    ensures var r := Serve(row, OwnerCancels(expected));
      && (r.Served? <==> row.cancelRequested || IsClaimable(row, expected))
      && (r.Served? ==> r.row.cancelRequested)
      && (r.Served? && row.cancelRequested ==> r.row == row)
      && (r.Served? && !row.cancelRequested ==>
            if (row.lease.Held? && row.lease.live) || HasPrepared(row)
            then r.row == row.(cancelRequested := true, revision := row.revision + 1)
            else r.row == row.(cancelRequested := true, revision := row.revision + 1, status := Cancelled, lease := Free))
  {
    hide LatestSuccess, Close;
  }
}
