/**
 document-pipeline-utils.ts, lines 52-77: mapping with a ceiling on concurrent work.

 Workers run between awaits without interruption; the schedule decides which pending
 call completes next. Under every schedule each index is claimed once, in order, the
 ceiling holds, and the results are those of the sequential map. The floor of the
 limit is given; zero stands for every value that JavaScript treats as false.
 */
module ConcurrentMap {

  datatype Worker = Running(index: nat) | Stopped

  datatype Slot<R> = Pending | Filled(value: R)

  function Concurrency(limit: int, count: nat): (c: nat)
    requires count > 0
    ensures 1 <= c <= count
    ensures if limit < 1 then c == 1 else c <= limit && (c == limit || c == count)
  {
    var floor := if limit == 0 then 1 else limit;
    var least := if floor < count then floor else count;
    if least > 1 then least else 1
  }

  /** The sequential map. */
  function MapAll<T, R>(items: seq<T>, f: (T, nat) -> R): (r: seq<R>)
    ensures |r| == |items| && forall i :: 0 <= i < |r| ==> r[i] == f(items[i], i)
  {
    if items == [] then [] else MapAll(items[..|items| - 1], f) + [f(items[|items| - 1], |items| - 1)]
  }

  function Values<R>(slots: seq<Slot<R>>): (r: seq<R>)
    requires forall i :: 0 <= i < |slots| ==> slots[i].Filled?
    ensures |r| == |slots| && forall i :: 0 <= i < |r| ==> r[i] == slots[i].value
  {
    if slots == [] then [] else Values(slots[..|slots| - 1]) + [slots[|slots| - 1].value]
  }

  predicate IsRunning(workers: seq<Worker>, index: nat) {
    exists w :: 0 <= w < |workers| && workers[w] == Running(index)
  }

  function InFlight(workers: seq<Worker>): (n: nat)
    ensures n <= |workers|
  {
    if workers == [] then 0 else InFlight(workers[..|workers| - 1]) + (if workers[|workers| - 1].Running? then 1 else 0)
  }

  function Most(a: nat, b: nat): nat {
    if a < b then b else a
  }

  lemma {:induction false} SomeoneRuns(workers: seq<Worker>)
    requires InFlight(workers) > 0
    ensures exists w :: 0 <= w < |workers| && workers[w].Running?
    decreases |workers|
  {
    if workers[|workers| - 1].Stopped? {
      SomeoneRuns(workers[..|workers| - 1]);
      var w :| 0 <= w < |workers| - 1 && workers[..|workers| - 1][w].Running?;
      assert workers[w].Running?;
    }
  }

  lemma {:induction false} NobodyRuns(workers: seq<Worker>)
    requires InFlight(workers) == 0
    ensures forall w :: 0 <= w < |workers| ==> workers[w].Stopped?
    decreases |workers|
  {
    if workers != [] {
      NobodyRuns(workers[..|workers| - 1]);
      assert forall w :: 0 <= w < |workers| - 1 ==> workers[..|workers| - 1][w] == workers[w];
    }
  }

  /** Which running worker completes next, given the schedule's choice. */
  function Next(workers: seq<Worker>, choice: nat): (w: nat)
    requires InFlight(workers) > 0
    ensures w < |workers| && workers[w].Running?
    decreases |workers|
  {
    SomeoneRuns(workers);
    if choice < |workers| && workers[choice].Running? then choice
    else FirstRunning(workers)
  }

  function FirstRunning(workers: seq<Worker>): (w: nat)
    requires exists w :: 0 <= w < |workers| && workers[w].Running?
    ensures w < |workers| && workers[w].Running?
  {
    if workers[0].Running? then 0
    else
      assert forall w :: 1 <= w < |workers| ==> workers[w] == workers[1..][w - 1];
      1 + FirstRunning(workers[1..])
  }

  // ----- the state of the pool -----

  /** Claims are 0, 1, 2, ... in order, and as many as were asked for while there was an index left. */
  predicate ClaimsInOrder(count: nat, nextIndex: nat, claims: seq<nat>) {
    && |claims| == (if nextIndex < count then nextIndex else count)
    && forall i :: 0 <= i < |claims| ==> claims[i] == i
  }

  ghost predicate AreResults<T, R>(items: seq<T>, f: (T, nat) -> R, slots: seq<Slot<R>>, claimed: nat) {
    && |slots| == |items|
    && forall i :: 0 <= i < |items| && slots[i].Filled? ==> i < claimed && slots[i].value == f(items[i], i)
  }

  /** A claimed index is either filled in or in flight. */
  predicate AllInHand<R>(slots: seq<Slot<R>>, workers: seq<Worker>, claimed: nat) {
    claimed <= |slots| && forall i :: 0 <= i < claimed ==> slots[i].Filled? || IsRunning(workers, i)
  }

  /** Whoever runs has a claimed index that is not filled in, and nobody else has it. */
  predicate RunApart<R>(slots: seq<Slot<R>>, workers: seq<Worker>, claimed: nat) {
    && claimed <= |slots|
    && (forall w :: 0 <= w < |workers| && workers[w].Running? ==> workers[w].index < claimed && slots[workers[w].index].Pending?)
    && forall v, w :: 0 <= v < w < |workers| && workers[v].Running? && workers[w].Running? ==> workers[v].index != workers[w].index
  }

  predicate NoneStopsEarly(count: nat, nextIndex: nat, workers: seq<Worker>) {
    forall w :: 0 <= w < |workers| && workers[w].Stopped? ==> nextIndex >= count
  }

  /** What a claim gives. */
  function Claimed(count: nat, nextIndex: nat): Worker {
    if nextIndex < count then Running(nextIndex) else Stopped
  }

  function ClaimsAfter(count: nat, nextIndex: nat, claims: seq<nat>): seq<nat> {
    if nextIndex < count then claims + [nextIndex] else claims
  }

  lemma {:induction false} StartedInHand<R>(slots: seq<Slot<R>>, workers: seq<Worker>, count: nat, nextIndex: nat, claims: seq<nat>)
    requires count == |slots| && ClaimsInOrder(count, nextIndex, claims) && AllInHand(slots, workers, |claims|)
    ensures AllInHand(slots, workers + [Claimed(count, nextIndex)], |ClaimsAfter(count, nextIndex, claims)|)
  {
    var more := workers + [Claimed(count, nextIndex)];
    assert more[|workers|] == Claimed(count, nextIndex);
    forall i | 0 <= i < |ClaimsAfter(count, nextIndex, claims)| && !slots[i].Filled? ensures IsRunning(more, i) {
      if i < |claims| {
        var w :| 0 <= w < |workers| && workers[w] == Running(i);
        assert more[w] == Running(i);
      }
    }
  }

  lemma {:induction false} CompletedInHand<R>(slots: seq<Slot<R>>, workers: seq<Worker>, count: nat, nextIndex: nat, claims: seq<nat>, w: nat, r: R)
    requires count == |slots| && ClaimsInOrder(count, nextIndex, claims) && AllInHand(slots, workers, |claims|)
    requires w < |workers| && workers[w].Running? && workers[w].index < |slots|
    ensures AllInHand(slots[workers[w].index := Filled(r)], workers[w := Claimed(count, nextIndex)], |ClaimsAfter(count, nextIndex, claims)|)
  {
    var after, filled := workers[w := Claimed(count, nextIndex)], slots[workers[w].index := Filled(r)];
    assert after[w] == Claimed(count, nextIndex);
    forall i | 0 <= i < |ClaimsAfter(count, nextIndex, claims)| && !filled[i].Filled? ensures IsRunning(after, i) {
      if i < |claims| {
        var v :| 0 <= v < |workers| && workers[v] == Running(i);
        assert after[v] == Running(i);
      }
    }
  }

  lemma {:induction false} CompletedRunApart<R>(slots: seq<Slot<R>>, workers: seq<Worker>, count: nat, nextIndex: nat, claims: seq<nat>, w: nat, r: R)
    requires count == |slots| && ClaimsInOrder(count, nextIndex, claims) && RunApart(slots, workers, |claims|)
    requires forall i :: |claims| <= i < count ==> slots[i].Pending?
    requires w < |workers| && workers[w].Running?
    ensures RunApart(slots[workers[w].index := Filled(r)], workers[w := Claimed(count, nextIndex)], |ClaimsAfter(count, nextIndex, claims)|)
  {
  }

  class Mapper<T, R> {
    const items: seq<T>
    const f: (T, nat) -> R
    var nextIndex: nat
    var slots: seq<Slot<R>>
    var workers: seq<Worker>
    ghost var claims: seq<nat>
    ghost var peak: nat

    constructor (items: seq<T>, f: (T, nat) -> R)
      ensures this.items == items && this.f == f && Valid() && workers == [] && claims == [] && peak == 0
    {
      this.items := items;
      this.f := f;
      nextIndex, workers, claims, peak := 0, [], [], 0;
      slots := Empty(|items|);
    }

    static function Empty(n: nat): (r: seq<Slot<R>>)
      ensures |r| == n && forall i :: 0 <= i < n ==> r[i].Pending?
    {
      if n == 0 then [] else Empty(n - 1) + [Pending]
    }

    /** Claims are 0, 1, 2, ... in order; a claimed index is either in flight with one worker or filled in. */
    ghost predicate Valid()
      reads this
    {
      && ClaimsInOrder(|items|, nextIndex, claims)
      && AreResults(items, f, slots, |claims|)
      && AllInHand(slots, workers, |claims|)
      && RunApart(slots, workers, |claims|)
      && NoneStopsEarly(|items|, nextIndex, workers)
    }

    /** The claim at the top of a worker's loop. */
    method Claim() returns (state: Worker)
      modifies `nextIndex, `claims
      ensures nextIndex == old(nextIndex) + 1
      ensures state == Claimed(|items|, old(nextIndex))
      ensures claims == ClaimsAfter(|items|, old(nextIndex), old(claims))
    {
      var index := nextIndex;
      nextIndex := nextIndex + 1;
      if index >= |items| {
        return Stopped;
      }
      claims := claims + [index];
      state := Running(index);
    }

    /** Starting one more worker; it runs up to its first await. */
    method Start()
      requires Valid()
      modifies this
      ensures Valid() && |workers| == |old(workers)| + 1 && workers[..|old(workers)|] == old(workers)
      ensures slots == old(slots) && peak == Most(old(peak), InFlight(workers))
    {
      hide AllInHand;
      StartedInHand(slots, workers, |items|, nextIndex, claims);
      var state := Claim();
      workers := workers + [state];
      peak := Most(peak, InFlight(workers));
    }

    /** A pending call completes: its worker stores the result and goes on to its next claim. */
    method Complete(w: nat)
      requires Valid() && w < |workers| && workers[w].Running?
      modifies this
      ensures Valid() && |workers| == |old(workers)| && workers == old(workers)[w := workers[w]]
      ensures var index := old(workers)[w].index; slots == old(slots)[index := Filled(f(items[index], index))]
      ensures workers[w].Running? ==> workers[w].index == |old(claims)| && claims == old(claims) + [|old(claims)|]
      ensures Left() < old(Left()) && peak == Most(old(peak), InFlight(workers))
    {
      hide AllInHand;
      var index := workers[w].index;
      CompletedInHand(slots, workers, |items|, nextIndex, claims, w, f(items[index], index));
      CompletedRunApart(slots, workers, |items|, nextIndex, claims, w, f(items[index], index));
      slots := slots[index := Filled(f(items[index], index))];
      var state := Claim();
      workers := workers[w := state];
      FillingLeavesLess(old(slots), index, slots[index]);
      peak := Most(peak, InFlight(workers));
    }

    ghost function Left(): nat
      reads this
    {
      CountPending(slots)
    }

    /** Promise.all over the workers, with the schedule choosing completions. */
    method Run(concurrency: nat, schedule: nat -> nat) returns (results: seq<R>)
      requires Valid() && workers == [] && peak == 0 && 1 <= concurrency
      modifies this
      ensures results == MapAll(items, f)
      ensures peak <= concurrency
      ensures |claims| == |items| && forall i :: 0 <= i < |items| ==> claims[i] == i
    {
      for started := 0 to concurrency
        invariant Valid() && |workers| == started && peak <= started
      {
        Start();
      }
      var step := 0;
      while InFlight(workers) > 0
        invariant Valid() && |workers| == concurrency && peak <= concurrency
        decreases Left()
      {
        Complete(Next(workers, schedule(step)));
        step := step + 1;
      }
      NobodyRuns(workers);
      assert workers[0].Stopped?;
      assert forall i :: 0 <= i < |items| ==> slots[i].Filled?;
      results := Values(slots);
    }
  }

  function CountPending<R>(slots: seq<Slot<R>>): nat {
    if slots == [] then 0 else CountPending(slots[..|slots| - 1]) + (if slots[|slots| - 1].Pending? then 1 else 0)
  }

  lemma {:induction false} FillingLeavesLess<R>(slots: seq<Slot<R>>, index: nat, filled: Slot<R>)
    requires index < |slots| && slots[index].Pending? && filled.Filled?
    ensures CountPending(slots[index := filled]) < CountPending(slots)
    decreases |slots|
  {
    var after := slots[index := filled];
    var n := |slots| - 1;
    if index == n {
      assert after[..n] == slots[..n];
    } else {
      assert after[..n] == slots[..n][index := filled];
      FillingLeavesLess(slots[..n], index, filled);
    }
  }

  /** mapWithConcurrency, with the largest number of calls that were in flight together. */
  method MapWithConcurrency<T, R>(items: seq<T>, limit: int, f: (T, nat) -> R, schedule: nat -> nat) returns (results: seq<R>, ghost peak: nat)
    ensures results == MapAll(items, f)
    ensures peak <= |items| && (peak <= 1 || peak <= limit || limit == 0)
    ensures items != [] ==> peak <= Concurrency(limit, |items|)
  {
    peak := 0;
    if items == [] {
      return [], 0;
    }
    var mapper := new Mapper<T, R>(items, f);
    results := mapper.Run(Concurrency(limit, |items|), schedule);
    peak := mapper.peak;
  }
}
