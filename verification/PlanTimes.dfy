/**
 manual-plans.ts, lines 134-151 and 265-332: the fixed-width UTC timestamps of manual
 plans, and what relies on comparing them as strings.

 The string order of accepted timestamps is the order of the microseconds they denote
 on the proleptic Gregorian calendar (leap years as in RFC 3339, appendix C). Hence an
 accepted list is sorted by time, and a chain of accepted saves has consecutive
 revisions at strictly later times.
 */
module PlanTimes {
  import opened Texts

  const DASH: CodeUnit := 45
  const COLON: CodeUnit := 58
  const POINT: CodeUnit := 46
  const LETTER_T: CodeUnit := 84
  const LETTER_Z: CodeUnit := 90
  const MAX_SAFE_INTEGER: nat := 0x1F_FFFF_FFFF_FFFF

  // ----- the format -----

  /** `from..to` are decimal digits. */
  predicate DigitsAt(t: Text, from: nat, to: nat) {
    from <= to <= |t| && AllDigits(t[from..to])
  }

  function NumberAt(t: Text, from: nat, to: nat): nat
    requires DigitsAt(t, from, to)
  {
    NatValue(t[from..to])
  }

  predicate HasDateShape(t: Text) {
    |t| == 10 && DigitsAt(t, 0, 4) && t[4] == DASH && DigitsAt(t, 5, 7) && t[7] == DASH && DigitsAt(t, 8, 10)
  }

  predicate IsLeap(year: nat) {
    year % 4 == 0 && (year % 100 != 0 || year % 400 == 0)
  }

  function DaysIn(year: nat, month: nat): nat {
    if month == 2 then (if IsLeap(year) then 29 else 28)
    else if month == 4 || month == 6 || month == 9 || month == 11 then 30
    else 31
  }

  /** isManualPlanCivilDate */
  predicate IsCivilDate(t: Text) {
    && HasDateShape(t)
    && var year, month, day := NumberAt(t, 0, 4), NumberAt(t, 5, 7), NumberAt(t, 8, 10);
       year >= 1 && 1 <= month <= 12 && 1 <= day <= DaysIn(year, month)
  }

  predicate HasTimeShape(t: Text) {
    && |t| == 27 && t[10] == LETTER_T && DigitsAt(t, 11, 13) && t[13] == COLON && DigitsAt(t, 14, 16) && t[16] == COLON
    && DigitsAt(t, 17, 19) && t[19] == POINT && DigitsAt(t, 20, 26) && t[26] == LETTER_Z
  }

  /** timestamp */
  predicate IsTimestamp(t: Text) {
    && HasTimeShape(t) && IsCivilDate(t[..10])
    && NumberAt(t, 11, 13) < 24 && NumberAt(t, 14, 16) < 60 && NumberAt(t, 17, 19) < 60
  }

  // ----- what a timestamp denotes -----

  datatype Instant = Instant(year: nat, month: nat, day: nat, hour: nat, minute: nat, second: nat, micro: nat)

  function InstantOf(t: Text): Instant
    requires IsTimestamp(t)
  {
    var d := t[..10];
    Instant(NumberAt(d, 0, 4), NumberAt(d, 5, 7), NumberAt(d, 8, 10), NumberAt(t, 11, 13), NumberAt(t, 14, 16), NumberAt(t, 17, 19), NumberAt(t, 20, 26))
  }

  function YearLength(year: nat): nat {
    if IsLeap(year) then 366 else 365
  }

  /** Days from the first of January of year 1. */
  function DaysBeforeYear(year: nat): nat {
    if year <= 1 then 0 else DaysBeforeYear(year - 1) + YearLength(year - 1)
  }

  function DaysBeforeMonth(year: nat, month: nat): nat {
    if month <= 1 then 0 else DaysBeforeMonth(year, month - 1) + DaysIn(year, month - 1)
  }

  function DayNumber(year: nat, month: nat, day: nat): nat {
    DaysBeforeYear(year) + DaysBeforeMonth(year, month) + day
  }

  /** Microseconds since the epoch of the proleptic Gregorian calendar. */
  function Micros(i: Instant): nat {
    (((DayNumber(i.year, i.month, i.day) * 24 + i.hour) * 60 + i.minute) * 60 + i.second) * 1_000_000 + i.micro
  }

  predicate IsInstant(i: Instant) {
    && i.year >= 1 && 1 <= i.month <= 12 && 1 <= i.day <= DaysIn(i.year, i.month)
    && i.hour < 24 && i.minute < 60 && i.second < 60 && i.micro < 1_000_000
  }

  // ----- calendar order -----

  /** Comparing two numbers, then the rest. */
  predicate Then(a: nat, b: nat, rest: bool) {
    a < b || (a == b && rest)
  }

  predicate DateBefore(i: Instant, j: Instant, rest: bool) {
    Then(i.year, j.year, Then(i.month, j.month, Then(i.day, j.day, rest)))
  }

  predicate TimeBefore(i: Instant, j: Instant) {
    Then(i.hour, j.hour, Then(i.minute, j.minute, Then(i.second, j.second, i.micro < j.micro)))
  }

  /** Field by field, largest unit first. */
  predicate Before(i: Instant, j: Instant) {
    DateBefore(i, j, TimeBefore(i, j))
  }

  lemma {:induction false} YearsGrow(a: nat, b: nat)
    requires 1 <= a < b
    ensures DaysBeforeYear(a) + YearLength(a) <= DaysBeforeYear(b)
    decreases b
  {
    if a < b - 1 {
      YearsGrow(a, b - 1);
    }
  }

  lemma {:induction false} MonthsGrow(year: nat, a: nat, b: nat)
    requires 1 <= a < b
    ensures DaysBeforeMonth(year, a) + DaysIn(year, a) <= DaysBeforeMonth(year, b)
    decreases b
  {
    if a < b - 1 {
      MonthsGrow(year, a, b - 1);
    }
  }

  lemma {:induction false} TwelveMonths(year: nat)
    ensures DaysBeforeMonth(year, 12) + 31 == YearLength(year)
  {
    assert DaysBeforeMonth(year, 2) == 31;
    assert DaysBeforeMonth(year, 4) == 62 + DaysIn(year, 2);
    assert DaysBeforeMonth(year, 6) == DaysBeforeMonth(year, 4) + 61;
    assert DaysBeforeMonth(year, 8) == DaysBeforeMonth(year, 6) + 61;
    assert DaysBeforeMonth(year, 10) == DaysBeforeMonth(year, 8) + 61;
    assert DaysBeforeMonth(year, 12) == DaysBeforeMonth(year, 10) + 61;
  }

  lemma {:induction false} DayOfYear(year: nat, month: nat, day: nat)
    requires 1 <= month <= 12 && 1 <= day <= DaysIn(year, month)
    ensures DaysBeforeMonth(year, month) + day <= YearLength(year)
  {
    TwelveMonths(year);
    if month < 12 {
      MonthsGrow(year, month, 12);
    }
  }

  /** An earlier date has a smaller day number. */
  lemma {:induction false} EarlierDate(y: nat, m: nat, d: nat, y': nat, m': nat, d': nat)
    requires y >= 1 && 1 <= m <= 12 && 1 <= d <= DaysIn(y, m)
    requires y' >= 1 && 1 <= m' <= 12 && 1 <= d' <= DaysIn(y', m')
    requires y < y' || (y == y' && (m < m' || (m == m' && d < d')))
    ensures DayNumber(y, m, d) < DayNumber(y', m', d')
  {
    if y < y' {
      YearsGrow(y, y');
      DayOfYear(y, m, d);
    } else if m < m' {
      MonthsGrow(y, m, m');
    }
  }

  lemma {:induction false} EarlierIsLess(i: Instant, j: Instant)
    requires IsInstant(i) && IsInstant(j) && Before(i, j)
    ensures Micros(i) < Micros(j)
  {
    if i.year == j.year && i.month == j.month && i.day == j.day {
      assert TimeBefore(i, j);
    } else {
      EarlierDate(i.year, i.month, i.day, j.year, j.month, j.day);
    }
  }

  lemma {:induction false} BeforeIsTotal(i: Instant, j: Instant)
    ensures Before(i, j) || Before(j, i) || i == j
  {
  }

  /** Calendar order is the order of microseconds. */
  lemma {:induction false} BeforeIsMicros(i: Instant, j: Instant)
    requires IsInstant(i) && IsInstant(j)
    ensures Before(i, j) <==> Micros(i) < Micros(j)
  {
    BeforeIsTotal(i, j);
    if Before(i, j) {
      EarlierIsLess(i, j);
    } else if Before(j, i) {
      EarlierIsLess(j, i);
    }
  }

  // ----- string order -----

  lemma {:induction false} LessOnConcat(p: Text, x: Text, q: Text, y: Text)
    requires |p| == |q|
    ensures Less(p + x, q + y) <==> Less(p, q) || (p == q && Less(x, y))
    decreases |p|
  {
    if p == [] {
      assert p + x == x && q + y == y;
    } else {
      assert (p + x)[1..] == p[1..] + x && (q + y)[1..] == q[1..] + y;
      LessOnConcat(p[1..], x, q[1..], y);
      if p[0] == q[0] {
        assert p == [p[0]] + p[1..] && q == [q[0]] + q[1..];
      }
    }
  }

  /** Digit strings of one width compare as the numbers they denote. */
  lemma {:induction false} DigitsCompare(a: Text, b: Text)
    requires |a| == |b| && AllDigits(a) && AllDigits(b)
    ensures Less(a, b) <==> NatValue(a) < NatValue(b)
    ensures a == b <==> NatValue(a) == NatValue(b)
    decreases |a|
  {
    if a != [] {
      var n := |a| - 1;
      DigitsCompare(a[..n], b[..n]);
      LessOnConcat(a[..n], a[n..], b[..n], b[n..]);
      assert a[..n] + a[n..] == a && b[..n] + b[n..] == b;
      assert a[n..] == [a[n]] && b[n..] == [b[n]];
    }
  }

  /** Texts that agree on a separator compare by what is before it, then by what is after it. */
  lemma {:induction false} CompareField(s: Text, t: Text, from: nat, to: nat)
    requires |s| == |t| && DigitsAt(s, from, to) && DigitsAt(t, from, to) && to < |s| && s[to] == t[to]
    ensures Less(s[from..], t[from..]) <==> Then(NumberAt(s, from, to), NumberAt(t, from, to), Less(s[to + 1..], t[to + 1..]))
  {
    var a, b := s[from..to], t[from..to];
    assert s[from..] == a + s[to..] && t[from..] == b + t[to..];
    LessOnConcat(a, s[to..], b, t[to..]);
    DigitsCompare(a, b);
    assert s[to..] == [s[to]] + s[to + 1..] && t[to..] == [t[to]] + t[to + 1..];
    LessOnConcat([s[to]], s[to + 1..], [t[to]], t[to + 1..]);
  }

  lemma {:induction false} NothingLess(s: Text, t: Text)
    requires s == [] && t == []
    ensures !Less(s, t)
  {
  }

  lemma {:induction false} DateFieldsAgree(t: Text)
    requires IsTimestamp(t)
    ensures t[4] == DASH && t[7] == DASH && t[10] == LETTER_T
    ensures DigitsAt(t, 0, 4) && DigitsAt(t, 5, 7) && DigitsAt(t, 8, 10)
    ensures var i := InstantOf(t); i.year == NumberAt(t, 0, 4) && i.month == NumberAt(t, 5, 7) && i.day == NumberAt(t, 8, 10)
  {
    var d := t[..10];
    assert d[0..4] == t[0..4] && d[5..7] == t[5..7] && d[8..10] == t[8..10];
    assert d[4] == t[4] && d[7] == t[7];
  }

  lemma {:induction false} TimeCompares(s: Text, t: Text)
    requires IsTimestamp(s) && IsTimestamp(t)
    ensures Less(s[11..], t[11..]) <==> TimeBefore(InstantOf(s), InstantOf(t))
  {
    CompareField(s, t, 11, 13);
    CompareField(s, t, 14, 16);
    CompareField(s, t, 17, 19);
    CompareField(s, t, 20, 26);
    NothingLess(s[27..], t[27..]);
  }

  lemma {:induction false} DateCompares(s: Text, t: Text)
    requires IsTimestamp(s) && IsTimestamp(t)
    ensures Less(s[0..], t[0..]) <==> DateBefore(InstantOf(s), InstantOf(t), Less(s[11..], t[11..]))
  {
    DateFieldsAgree(s);
    DateFieldsAgree(t);
    CompareField(s, t, 0, 4);
    CompareField(s, t, 5, 7);
    CompareField(s, t, 8, 10);
  }

  lemma {:induction false} DigitBound(t: Text)
    requires AllDigits(t) && |t| == 6
    ensures NatValue(t) < 1_000_000
  {
    ValueBound(t);
    assert TenTo(6) == 1_000_000;
  }

  function TenTo(k: nat): nat {
    if k == 0 then 1 else 10 * TenTo(k - 1)
  }

  lemma {:induction false} ValueBound(t: Text)
    requires AllDigits(t)
    ensures NatValue(t) < TenTo(|t|)
    decreases |t|
  {
    if t != [] {
      ValueBound(t[..|t| - 1]);
    }
  }

  lemma {:induction false} DenotesInstant(t: Text)
    requires IsTimestamp(t)
    ensures IsInstant(InstantOf(t))
  {
    DigitBound(t[20..26]);
  }

  function MicrosOf(t: Text): nat
    requires IsTimestamp(t)
  {
    Micros(InstantOf(t))
  }

  /** The string order of accepted timestamps is chronological. */
  lemma {:induction false} StringOrderIsChronological(s: Text, t: Text)
    requires IsTimestamp(s) && IsTimestamp(t)
    ensures Less(s, t) <==> MicrosOf(s) < MicrosOf(t)
  {
    assert s[0..] == s && t[0..] == t;
    DateCompares(s, t);
    TimeCompares(s, t);
    DenotesInstant(s);
    DenotesInstant(t);
    BeforeIsMicros(InstantOf(s), InstantOf(t));
  }

  /** Different accepted timestamps denote different microseconds. */
  lemma {:induction false} TimestampsAreDistinct(s: Text, t: Text)
    requires IsTimestamp(s) && IsTimestamp(t) && MicrosOf(s) == MicrosOf(t)
    ensures s == t
  {
    StringOrderIsChronological(s, t);
    StringOrderIsChronological(t, s);
    LessIsTotal(s, t);
  }

  // ----- plan lists -----

  /** One row of a plan list; the checks on its other fields are one arbitrary flag. */
  datatype Summary = Summary(planId: Text, outcomeId: Text, artifactId: Text, updatedAt: Text, fieldsAreValid: bool)

  predicate IsSummary(s: Summary) {
    s.fieldsAreValid && IsTimestamp(s.updatedAt)
  }

  /** The order check on neighbours, as it is written. */
  predicate InOrder(previous: Summary, next: Summary) {
    && !Less(previous.updatedAt, next.updatedAt)
    && !(previous.updatedAt == next.updatedAt && !Less(previous.artifactId, next.artifactId))
  }

  predicate IsNew(items: seq<Summary>, s: Summary) {
    forall i :: 0 <= i < |items| ==> items[i].planId != s.planId && items[i].outcomeId != s.outcomeId && items[i].artifactId != s.artifactId
  }

  /** A row that may follow the given ones. */
  predicate Fits(items: seq<Summary>, s: Summary) {
    IsSummary(s) && IsNew(items, s) && (items != [] ==> InOrder(items[|items| - 1], s))
  }

  predicate AllFit(items: seq<Summary>) {
    items == [] || (AllFit(items[..|items| - 1]) && Fits(items[..|items| - 1], items[|items| - 1]))
  }

  predicate IsPlanList(items: seq<Summary>, hasMore: bool) {
    |items| <= 50 && (hasMore ==> items != []) && AllFit(items)
  }

  lemma {:induction false} PrefixesFit(items: seq<Summary>, n: nat)
    requires n <= |items|
    ensures AllFit(items) ==> AllFit(items[..n])
    decreases |items|
  {
    if n == |items| {
      assert items[..n] == items;
    } else {
      PrefixesFit(items[..|items| - 1], n);
      assert items[..|items| - 1][..n] == items[..n];
    }
  }

  lemma {:induction false} FitStep(items: seq<Summary>, n: nat)
    requires n < |items|
    ensures AllFit(items[..n + 1]) <==> AllFit(items[..n]) && Fits(items[..n], items[n])
  {
    assert items[..n + 1][..n] == items[..n];
  }

  /** The identifiers that the loop keeps of the rows it has taken. */
  datatype Seen = Seen(plans: set<Text>, outcomes: set<Text>, artifacts: set<Text>)

  ghost predicate HasSeen(seen: Seen, items: seq<Summary>) {
    && (forall id :: id in seen.plans <==> exists k :: 0 <= k < |items| && items[k].planId == id)
    && (forall id :: id in seen.outcomes <==> exists k :: 0 <= k < |items| && items[k].outcomeId == id)
    && (forall id :: id in seen.artifacts <==> exists k :: 0 <= k < |items| && items[k].artifactId == id)
  }

  function SeeAlso(seen: Seen, s: Summary): Seen {
    Seen(seen.plans + {s.planId}, seen.outcomes + {s.outcomeId}, seen.artifacts + {s.artifactId})
  }

  lemma {:induction false} NothingSeen()
    ensures HasSeen(Seen({}, {}, {}), []) && AllFit([])
  {
  }

  lemma {:induction false} SeesOneMore(seen: Seen, items: seq<Summary>, s: Summary)
    requires HasSeen(seen, items)
    ensures HasSeen(SeeAlso(seen, s), items + [s])
  {
    var more := items + [s];
    assert more[|items|] == s && forall k :: 0 <= k < |items| ==> more[k] == items[k];
  }

  /** One row against the sets and the row before it. */
  method TakeRow(items: seq<Summary>, seen: Seen, candidate: Summary) returns (ok: bool)
    requires HasSeen(seen, items)
    ensures ok <==> Fits(items, candidate)
  {
    ok := IsSummary(candidate) && candidate.planId !in seen.plans && candidate.outcomeId !in seen.outcomes && candidate.artifactId !in seen.artifacts;
    if ok && items != [] {
      var previous := items[|items| - 1];
      ok := !(Less(previous.updatedAt, candidate.updatedAt)
              || (previous.updatedAt == candidate.updatedAt && !Less(previous.artifactId, candidate.artifactId)));
    }
  }

  /** The loop of parseManualPlanList, with its three sets of identifiers. */
  method ParsePlanList(candidates: seq<Summary>, hasMore: bool) returns (ok: bool)
    ensures ok <==> IsPlanList(candidates, hasMore)
  {
    hide HasSeen, AllFit, Fits, SeeAlso;
    if |candidates| > 50 || (hasMore && candidates == []) {
      return false;
    }
    NothingSeen();
    var items: seq<Summary>, seen := [], Seen({}, {}, {});
    for n := 0 to |candidates|
      invariant items == candidates[..n] && AllFit(items) && HasSeen(seen, items)
    {
      FitStep(candidates, n);
      var fits := TakeRow(items, seen, candidates[n]);
      if !fits {
        PrefixesFit(candidates, n + 1);
        return false;
      }
      SeesOneMore(seen, items, candidates[n]);
      seen := SeeAlso(seen, candidates[n]);
      items := items + [candidates[n]];
    }
    assert candidates[..|candidates|] == candidates;
    ok := true;
  }

  /** Later first; at the same microsecond, by artifact. */
  predicate Precedes(a: Summary, b: Summary)
    requires IsTimestamp(a.updatedAt) && IsTimestamp(b.updatedAt)
  {
    MicrosOf(a.updatedAt) > MicrosOf(b.updatedAt)
    || (MicrosOf(a.updatedAt) == MicrosOf(b.updatedAt) && Less(a.artifactId, b.artifactId))
  }

  lemma {:induction false} NeighboursPrecede(a: Summary, b: Summary)
    requires IsTimestamp(a.updatedAt) && IsTimestamp(b.updatedAt) && InOrder(a, b)
    ensures Precedes(a, b)
  {
    StringOrderIsChronological(a.updatedAt, b.updatedAt);
    if MicrosOf(a.updatedAt) == MicrosOf(b.updatedAt) {
      TimestampsAreDistinct(a.updatedAt, b.updatedAt);
    }
  }

  lemma {:induction false} PrecedesIsTransitive(a: Summary, b: Summary, c: Summary)
    requires IsTimestamp(a.updatedAt) && IsTimestamp(b.updatedAt) && IsTimestamp(c.updatedAt) && Precedes(a, b) && Precedes(b, c)
    ensures Precedes(a, c)
  {
    if Less(a.artifactId, b.artifactId) && Less(b.artifactId, c.artifactId) {
      LessIsTransitive(a.artifactId, b.artifactId, c.artifactId);
    }
  }

  predicate BothPrecede(a: Summary, b: Summary) {
    IsTimestamp(a.updatedAt) && IsTimestamp(b.updatedAt) && Precedes(a, b)
  }

  lemma {:induction false} ListNeighbours(items: seq<Summary>, j: nat)
    requires AllFit(items) && 0 < j < |items|
    ensures BothPrecede(items[j - 1], items[j])
  {
    PrefixesFit(items, j + 1);
    PrefixesFit(items, j);
    FitStep(items, j);
    FitStep(items, j - 1);
    NeighboursPrecede(items[j - 1], items[j]);
  }

  /** A transitive relation between neighbours holds between any two elements. */
  lemma {:induction false} NeighboursToPairs<T(!new)>(xs: seq<T>, r: (T, T) -> bool, i: nat, j: nat)
    requires forall k :: 0 < k < |xs| ==> r(xs[k - 1], xs[k])
    requires forall a, b, c :: r(a, b) && r(b, c) ==> r(a, c)
    requires i < j < |xs|
    ensures r(xs[i], xs[j])
    decreases j
  {
    if i < j - 1 {
      NeighboursToPairs(xs, r, i, j - 1);
    }
  }

  /** An accepted list is sorted pairwise: by descending time, then by artifact. */
  lemma {:induction false} SortedThroughout(items: seq<Summary>, i: nat, j: nat)
    requires AllFit(items) && i < j < |items|
    ensures BothPrecede(items[i], items[j])
  {
    forall k | 0 < k < |items| ensures BothPrecede(items[k - 1], items[k]) {
      ListNeighbours(items, k);
    }
    forall a, b, c | BothPrecede(a, b) && BothPrecede(b, c) ensures BothPrecede(a, c) {
      PrecedesIsTransitive(a, b, c);
    }
    NeighboursToPairs(items, BothPrecede, i, j);
  }

  predicate AreDistinct(a: Summary, b: Summary) {
    a.planId != b.planId && a.outcomeId != b.outcomeId && a.artifactId != b.artifactId
  }

  /** Rows that pass on their own, differ pairwise in each identifier, and are sorted pairwise. */
  predicate AreListed(items: seq<Summary>) {
    && (forall i :: 0 <= i < |items| ==> IsSummary(items[i]))
    && forall i, j :: 0 <= i < j < |items| ==> AreDistinct(items[i], items[j]) && BothPrecede(items[i], items[j])
  }

  lemma {:induction false} PrecedingIsInOrder(a: Summary, b: Summary)
    requires BothPrecede(a, b)
    ensures InOrder(a, b)
  {
    if Less(a.updatedAt, b.updatedAt) {
      StringOrderIsChronological(a.updatedAt, b.updatedAt);
    }
  }

  lemma {:induction false} RowFits(items: seq<Summary>, j: nat)
    requires AllFit(items) && j < |items|
    ensures Fits(items[..j], items[j])
  {
    PrefixesFit(items, j + 1);
    FitStep(items, j);
  }

  lemma {:induction false} FrontIsListed(items: seq<Summary>, n: nat)
    requires AreListed(items) && n <= |items|
    ensures AreListed(items[..n])
  {
    hide IsSummary, BothPrecede, AreDistinct;
    assert forall i :: 0 <= i < n ==> items[..n][i] == items[i];
  }

  lemma {:induction false} ListedFit(items: seq<Summary>)
    requires AreListed(items)
    ensures AllFit(items)
  {
    hide IsSummary, BothPrecede, InOrder;
    if items != [] {
      var n := |items| - 1;
      var front := items[..n];
      FrontIsListed(items, n);
      ListedFit(front);
      forall i | 0 <= i < n ensures AreDistinct(front[i], items[n]) {
        assert AreDistinct(items[i], items[n]);
      }
      if n > 0 {
        assert BothPrecede(items[n - 1], items[n]);
        PrecedingIsInOrder(items[n - 1], items[n]);
      }
    }
  }

  /** The loop's row-by-row checks are pairwise distinctness and order. */
  lemma {:induction false} PlanListsExactly(items: seq<Summary>)
    ensures AllFit(items) <==> AreListed(items)
  {
    if AllFit(items) {
      forall j | 0 <= j < |items| ensures IsSummary(items[j]) && IsNew(items[..j], items[j]) {
        RowFits(items, j);
      }
      forall i, j | 0 <= i < j < |items| ensures AreDistinct(items[i], items[j]) && BothPrecede(items[i], items[j]) {
        assert IsNew(items[..j], items[j]) && items[..j][i] == items[i];
        SortedThroughout(items, i, j);
      }
    }
    if AreListed(items) {
      ListedFit(items);
    }
  }

  // ----- saves -----

  datatype Version = Version(outcomeId: Text, artifactId: Text, revision: nat, updatedAt: Text)

  datatype Expected = NewPlan | Expected(version: Version)

  /** `content` stands for the title and the items, which are compared field by field. */
  datatype Command = Command(planId: Text, expected: Expected, content: Text)

  datatype Snapshot = Snapshot(planId: Text, version: Version, createdAt: Text, content: Text)

  datatype Status = Saved | Replayed | Superseded

  datatype SaveReceipt = SaveReceipt(status: Status, committed: Version, snapshot: Snapshot)

  predicate IsVersion(v: Version) {
    1 <= v.revision <= MAX_SAFE_INTEGER && IsTimestamp(v.updatedAt)
  }

  predicate IsSnapshot(s: Snapshot) {
    IsVersion(s.version) && IsTimestamp(s.createdAt) && !Less(s.version.updatedAt, s.createdAt)
  }

  predicate FollowsExpected(committed: Version, expected: Expected) {
    match expected
    case NewPlan => committed.revision == 1
    case Expected(v) =>
      && v.revision + 1 <= MAX_SAFE_INTEGER && committed.revision == v.revision + 1
      && committed.outcomeId == v.outcomeId && committed.artifactId == v.artifactId
      && Less(v.updatedAt, committed.updatedAt)
  }

  /** parseManualPlanSaveReceipt, after the identity fields. */
  predicate IsReceipt(r: SaveReceipt, command: Command) {
    && (command.expected.Expected? ==> IsVersion(command.expected.version))
    && IsVersion(r.committed) && IsSnapshot(r.snapshot) && r.snapshot.planId == command.planId
    && r.committed.outcomeId == r.snapshot.version.outcomeId && r.committed.artifactId == r.snapshot.version.artifactId
    && !Less(r.committed.updatedAt, r.snapshot.createdAt)
    && FollowsExpected(r.committed, command.expected)
    && if r.status == Superseded then
         && r.snapshot.version.revision >= r.committed.revision && Less(r.committed.updatedAt, r.snapshot.version.updatedAt)
         && (r.snapshot.version.revision == r.committed.revision ==> r.snapshot.content == command.content)
       else r.snapshot.version == r.committed && r.snapshot.content == command.content
  }

  /** Saves in which each one expects what the one before it committed. */
  predicate IsChain(commands: seq<Command>, receipts: seq<SaveReceipt>) {
    && |commands| == |receipts|
    && (forall i :: 0 <= i < |receipts| ==> IsReceipt(receipts[i], commands[i]))
    && (forall i :: 0 < i < |receipts| ==> commands[i].expected == Expected(receipts[i - 1].committed))
  }

  /** The second version is `steps` saves after the first one. */
  predicate IsLater(a: Version, b: Version, steps: nat) {
    && IsTimestamp(a.updatedAt) && IsTimestamp(b.updatedAt)
    && b.revision == a.revision + steps && b.outcomeId == a.outcomeId && b.artifactId == a.artifactId
    && MicrosOf(a.updatedAt) < MicrosOf(b.updatedAt)
  }

  lemma {:induction false} SavesAdvance(r: SaveReceipt, command: Command)
    requires IsReceipt(r, command) && command.expected.Expected?
    ensures IsLater(command.expected.version, r.committed, 1)
  {
    StringOrderIsChronological(command.expected.version.updatedAt, r.committed.updatedAt);
  }

  lemma {:induction false} LaterIsTransitive(a: Version, b: Version, c: Version, m: nat, n: nat)
    requires IsLater(a, b, m) && IsLater(b, c, n)
    ensures IsLater(a, c, m + n)
  {
  }

  ghost predicate AddsUp<T(!new)>(r: (T, T, nat) -> bool) {
    forall a: T, b: T, c: T, m: nat, n: nat :: r(a, b, m) && r(b, c, n) ==> r(a, c, m + n)
  }

  lemma {:induction false} LaterAddsUp()
    ensures AddsUp(IsLater)
  {
    forall a: Version, b: Version, c: Version, m: nat, n: nat | IsLater(a, b, m) && IsLater(b, c, n) ensures IsLater(a, c, m + n) {
      LaterIsTransitive(a, b, c, m, n);
    }
  }

  /** A relation that adds up along neighbours holds over any distance. */
  lemma {:induction false} NeighboursAddUp<T(!new)>(xs: seq<T>, r: (T, T, nat) -> bool, i: nat, j: nat)
    requires forall k :: 0 < k < |xs| ==> r(xs[k - 1], xs[k], 1)
    requires AddsUp(r)
    requires i < j < |xs|
    ensures r(xs[i], xs[j], j - i)
    decreases j
  {
    if i < j - 1 {
      NeighboursAddUp(xs, r, i, j - 1);
      assert r(xs[j - 1], xs[j], 1);
    }
  }

  function Committed(receipts: seq<SaveReceipt>): (r: seq<Version>)
    ensures |r| == |receipts| && forall i :: 0 <= i < |r| ==> r[i] == receipts[i].committed
  {
    if receipts == [] then [] else Committed(receipts[..|receipts| - 1]) + [receipts[|receipts| - 1].committed]
  }

  lemma {:induction false} ChainStep(commands: seq<Command>, receipts: seq<SaveReceipt>, j: nat)
    requires IsChain(commands, receipts) && 0 < j < |receipts|
    ensures IsLater(Committed(receipts)[j - 1], Committed(receipts)[j], 1)
  {
    SavesAdvance(receipts[j], commands[j]);
  }

  /** Along a chain of saves, revisions are consecutive, times strictly increase and the plan stays the same. */
  lemma {:induction false} ChainsAdvance(commands: seq<Command>, receipts: seq<SaveReceipt>, i: nat, j: nat)
    requires IsChain(commands, receipts) && i < j < |receipts|
    ensures IsLater(receipts[i].committed, receipts[j].committed, j - i)
  {
    var versions := Committed(receipts);
    forall k | 0 < k < |versions| ensures IsLater(versions[k - 1], versions[k], 1) {
      ChainStep(commands, receipts, k);
    }
    LaterAddsUp();
    NeighboursAddUp(versions, IsLater, i, j);
  }

  /** What the client is shown is never older than what it saved, nor than the plan itself. */
  lemma {:induction false} ReceiptsAreOrdered(r: SaveReceipt, command: Command)
    requires IsReceipt(r, command)
    ensures MicrosOf(r.snapshot.createdAt) <= MicrosOf(r.committed.updatedAt) <= MicrosOf(r.snapshot.version.updatedAt)
    ensures r.status == Superseded <==> MicrosOf(r.committed.updatedAt) < MicrosOf(r.snapshot.version.updatedAt)
  {
    StringOrderIsChronological(r.committed.updatedAt, r.snapshot.createdAt);
    StringOrderIsChronological(r.committed.updatedAt, r.snapshot.version.updatedAt);
  }
}
