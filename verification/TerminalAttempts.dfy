/**
 cost-tracker.ts, lines 358-376 and 705-761: persisting one terminal model attempt
 when acknowledgements can be lost.

 The ledger keeps the first facts written under a key, acknowledges identical facts
 again and refuses different ones. The environment decides for every call whether it
 arrives and what comes back, and lets others write in between. The facts are opaque;
 `key` stands for the digest that identifies a model call.
 */
module TerminalAttempts {

  /** What comes back from a call that may or may not have arrived. */
  datatype Fate = Answered | Garbled | Ambiguous | Definite

  datatype Turn<F> = Turn(others: seq<F>, arrives: bool, fate: Fate)

  datatype Receipt<K> = Receipt(key: K) | PersistenceFailed | AcknowledgementUnresolved

  datatype Reply<K> = Acknowledged(key: K) | Unusable | AmbiguousError | DefiniteError

  /** The ledger after a write: an existing row is never replaced. */
  function Write<K, F>(rows: map<K, F>, key: F -> K, f: F): map<K, F> {
    if key(f) in rows then rows else rows[key(f) := f]
  }

  function WriteAll<K, F>(rows: map<K, F>, key: F -> K, fs: seq<F>): map<K, F> {
    if fs == [] then rows else Write(WriteAll(rows, key, fs[..|fs| - 1]), key, fs[|fs| - 1])
  }

  /** Every row is kept as it is. */
  predicate Extends<K, F(==)>(before: map<K, F>, after: map<K, F>) {
    forall k :: k in before ==> k in after && after[k] == before[k]
  }

  lemma {:induction false} WritesExtend<K, F>(rows: map<K, F>, key: F -> K, fs: seq<F>)
    ensures Extends(rows, WriteAll(rows, key, fs))
    decreases |fs|
  {
    if fs != [] {
      WritesExtend(rows, key, fs[..|fs| - 1]);
    }
  }

  // ----- what the environment makes of one call -----

  function RowsAfter<K, F>(t: Turn<F>, rows: map<K, F>, key: F -> K, f: F): map<K, F> {
    var met := WriteAll(rows, key, t.others);
    if t.arrives then Write(met, key, f) else met
  }

  function ReplyTo<K(==), F(==)>(t: Turn<F>, after: map<K, F>, key: F -> K, f: F): Reply<K> {
    match t.fate
    case Answered =>
      if !t.arrives || key(f) !in after then AmbiguousError
      else if after[key(f)] == f then Acknowledged(key(f))
      else DefiniteError
    case Garbled => Unusable
    case Ambiguous => AmbiguousError
    case Definite => DefiniteError
  }

  function Confirms<K(==), F(==)>(t: Turn<F>, rows: map<K, F>, key: F -> K, f: F): bool {
    t.arrives && t.fate == Answered && key(f) in rows && rows[key(f)] == f
  }

  /** What the two writes and the verification read would bring back, one after the other. */
  datatype Course<K> = Course(first: Reply<K>, second: Reply<K>, confirmed: bool)

  function CourseOf<K(==), F(==)>(schedule: nat -> Turn<F>, clock: nat, rows: map<K, F>, key: F -> K, f: F): Course<K> {
    var one := RowsAfter(schedule(clock), rows, key, f);
    var two := RowsAfter(schedule(clock + 1), one, key, f);
    var three := WriteAll(two, key, schedule(clock + 2).others);
    Course(ReplyTo(schedule(clock), one, key, f), ReplyTo(schedule(clock + 1), two, key, f), Confirms(schedule(clock + 2), three, key, f))
  }

  class Ledger<K(==), F(==)> {
    const key: F -> K
    const schedule: nat -> Turn<F>
    var rows: map<K, F>
    var clock: nat
    ghost var writes: nat

    constructor (key: F -> K, schedule: nat -> Turn<F>, rows: map<K, F>)
      ensures this.key == key && this.schedule == schedule && this.rows == rows && clock == 0 && writes == 0
    {
      this.key := key;
      this.schedule := schedule;
      this.rows := rows;
      clock, writes := 0, 0;
    }

    /** One write command; a refusal of different facts is a definite error. */
    method Record(f: F) returns (r: Reply<K>)
      modifies this
      ensures rows == RowsAfter(schedule(old(clock)), old(rows), key, f) && Extends(old(rows), rows)
      ensures r == ReplyTo(schedule(old(clock)), rows, key, f)
      ensures clock == old(clock) + 1 && writes == old(writes) + 1
    {
      var t := schedule(clock);
      clock, writes := clock + 1, writes + 1;
      WritesExtend(rows, key, t.others);
      rows := RowsAfter(t, rows, key, f);
      r := ReplyTo(t, rows, key, f);
    }

    /** The bounded verification read: only a row with every immutable fact counts. */
    method Verify(f: F) returns (found: bool)
      modifies this
      ensures rows == WriteAll(old(rows), key, schedule(old(clock)).others) && Extends(old(rows), rows)
      ensures found == Confirms(schedule(old(clock)), rows, key, f)
      ensures clock == old(clock) + 1 && writes == old(writes)
    {
      var t := schedule(clock);
      clock := clock + 1;
      WritesExtend(rows, key, t.others);
      rows := WriteAll(rows, key, t.others);
      found := Confirms(t, rows, key, f);
    }
  }

  /**
   trackTerminalModelAttempt: a receipt is only returned when exactly these facts are
   stored, after at most two writes; rows are never changed, so at most one write took
   effect. A definite error of a write ends it at once; only when both acknowledgements
   stayed unclear does the verification read decide.
   */
  method TrackTerminalAttempt<K(==), F(==)>(ledger: Ledger<K, F>, f: F, valid: F -> bool) returns (r: Receipt<K>)
    modifies ledger
    ensures r.Receipt? ==> r.key == ledger.key(f) && r.key in ledger.rows && ledger.rows[r.key] == f
    ensures Extends(old(ledger.rows), ledger.rows)
    ensures old(ledger.writes) <= ledger.writes <= old(ledger.writes) + 2
    ensures !valid(f) ==> r.PersistenceFailed? && ledger.writes == old(ledger.writes) && ledger.rows == old(ledger.rows)
    ensures var c := CourseOf(ledger.schedule, old(ledger.clock), old(ledger.rows), ledger.key, f);
      && (valid(f) && c.first.Acknowledged? ==> r.Receipt? && ledger.writes == old(ledger.writes) + 1)
      && (valid(f) && c.first.DefiniteError? ==> r.PersistenceFailed? && ledger.writes == old(ledger.writes) + 1)
      && (valid(f) && IsUnclear(c.first) && c.second.Acknowledged? ==> r.Receipt?)
      && (valid(f) && IsUnclear(c.first) && c.second.DefiniteError? ==> r.PersistenceFailed?)
      && (valid(f) && IsUnclear(c.first) && IsUnclear(c.second) ==> r == if c.confirmed then Receipt(ledger.key(f)) else AcknowledgementUnresolved)
  {
    if !valid(f) {
      return PersistenceFailed;
    }
    ghost var course := CourseOf(ledger.schedule, ledger.clock, ledger.rows, ledger.key, f);
    var attempt := 1;
    while attempt <= 2
      invariant 1 <= attempt <= 3
      invariant Extends(old(ledger.rows), ledger.rows)
      invariant ledger.writes == old(ledger.writes) + attempt - 1 && ledger.clock == old(ledger.clock) + attempt - 1
      invariant attempt == 1 ==> ledger.rows == old(ledger.rows)
      invariant attempt == 2 ==> ledger.rows == RowsAfter(ledger.schedule(old(ledger.clock)), old(ledger.rows), ledger.key, f)
      invariant attempt == 3 ==> course.confirmed == Confirms(ledger.schedule(ledger.clock), WriteAll(ledger.rows, ledger.key, ledger.schedule(ledger.clock).others), ledger.key, f)
      invariant attempt >= 2 ==> IsUnclear(course.first)
      invariant attempt == 3 ==> IsUnclear(course.second)
    {
      var reply := ledger.Record(f);
      if reply.Acknowledged? && reply.key == ledger.key(f) {
        return Receipt(reply.key);
      }
      if reply.DefiniteError? {
        return PersistenceFailed;
      }
      attempt := attempt + 1;
    }
    var found := ledger.Verify(f);
    r := if found then Receipt(ledger.key(f)) else AcknowledgementUnresolved;
  }

  /** Neither an acknowledgement nor a definite error. */
  predicate IsUnclear<K>(reply: Reply<K>) {
    reply.Unusable? || reply.AmbiguousError?
  }

  /** Whatever others write later, what a receipt vouches for stays. */
  lemma {:induction false} ReceiptsStayTrue<K, F>(rows: map<K, F>, key: F -> K, f: F, later: seq<F>)
    requires key(f) in rows && rows[key(f)] == f
    ensures key(f) in WriteAll(rows, key, later) && WriteAll(rows, key, later)[key(f)] == f
  {
    WritesExtend(rows, key, later);
  }
}
