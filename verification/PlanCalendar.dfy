/**
 manual-plans.ts, lines 134-151: which texts are timestamps, and the calendar behind them.

 The accepted texts are exactly the printed instants of the years 1 to 9999, and the
 leap days before a year are those of the Gregorian rule (RFC 3339, appendix C).
 */
module PlanCalendar {
  import opened Texts
  import opened PlanTimes

  // ----- the calendar -----

  lemma {:induction false} OneMore(n: nat, d: nat)
    requires d == 4 || d == 100 || d == 400
    ensures (n + 1) / d == n / d + if (n + 1) % d == 0 then 1 else 0
  {
  }

  lemma {:induction false} HundredsAreFours(n: nat)
    ensures n % 400 == 0 ==> n % 100 == 0
    ensures n % 100 == 0 ==> n % 4 == 0
  {
    if n % 400 == 0 {
      Hundreds(4 * (n / 400));
    }
    if n % 100 == 0 {
      Fours(25 * (n / 100));
    }
  }

  lemma {:induction false} Fours(k: nat)
    ensures (4 * k) % 4 == 0
  {
  }

  lemma {:induction false} Hundreds(k: nat)
    ensures (100 * k) % 100 == 0
  {
  }

  lemma {:induction false} LeapStep(past: nat)
    ensures (past + 1) / 4 - (past + 1) / 100 + (past + 1) / 400
         == past / 4 - past / 100 + past / 400 + (YearLength(past + 1) - 365)
  {
    OneMore(past, 4);
    OneMore(past, 100);
    OneMore(past, 400);
    HundredsAreFours(past + 1);
  }

  /** A year has its leap day every fourth year, not every hundredth, but every four hundredth. */
  lemma {:induction false} DaysBeforeYearExactly(year: nat)
    requires year >= 1
    ensures var past := year - 1; DaysBeforeYear(year) == 365 * past + past / 4 - past / 100 + past / 400
  {
    hide YearLength;
    if year > 1 {
      DaysBeforeYearExactly(year - 1);
      LeapStep(year - 2);
    }
  }

  const MONTH_LENGTHS: seq<nat> := [31, 28, 31, 30, 31, 30, 31, 31, 30, 31, 30, 31]

  /** February has one more day in a year of 366 days. */
  lemma {:induction false} DaysInExactly(year: nat, month: nat)
    requires 1 <= month <= 12
    ensures DaysIn(year, month) == MONTH_LENGTHS[month - 1] + if month == 2 && YearLength(year) == 366 then 1 else 0
  {
  }

  // ----- printing -----

  /** The decimal numeral of this width, with leading zeros. */
  function Padded(n: nat, width: nat): (t: Text)
    ensures |t| == width && AllDigits(t)
  {
    if width == 0 then [] else Padded(n / 10, width - 1) + [(48 + n % 10) as CodeUnit]
  }

  function Power(width: nat): nat {
    if width == 0 then 1 else 10 * Power(width - 1)
  }

  /** Digits of a width are the padded numeral of the number that they denote. */
  lemma {:induction false} PaddedExactly(t: Text, n: nat)
    requires AllDigits(t)
    ensures t == Padded(n, |t|) && n < Power(|t|) <==> NatValue(t) == n
    decreases |t|
  {
    if t != [] {
      var front, last := t[..|t| - 1], t[|t| - 1];
      PaddedExactly(front, n / 10);
      assert t == front + [last];
      if t == Padded(n, |t|) {
        assert front == Padded(n / 10, |t| - 1) && last == (48 + n % 10) as CodeUnit;
      }
    }
  }

  /** YYYY-MM-DDTHH:MM:SS.ffffffZ */
  function Printed(i: Instant): Text {
    Padded(i.year, 4) + [45] + Padded(i.month, 2) + [45] + Padded(i.day, 2) + [84]
    + Padded(i.hour, 2) + [58] + Padded(i.minute, 2) + [58] + Padded(i.second, 2) + [46] + Padded(i.micro, 6) + [90]
  }

  lemma {:induction false} Powers()
    ensures Power(2) == 100 && Power(4) == 10_000 && Power(6) == 1_000_000
  {
    assert Power(4) == 100 * Power(2) && Power(6) == 100 * Power(4);
  }

  lemma {:induction false} PaddedReads(n: nat, width: nat)
    requires n < Power(width)
    ensures NatValue(Padded(n, width)) == n
  {
    PaddedExactly(Padded(n, width), n);
  }

  lemma {:induction false} FieldIsPadded(t: Text, from: nat, to: nat)
    requires DigitsAt(t, from, to)
    ensures t[from..to] == Padded(NumberAt(t, from, to), to - from) && NumberAt(t, from, to) < Power(to - from)
  {
    PaddedExactly(t[from..to], NumberAt(t, from, to));
  }

  /** The fields of a printed instant, where they stand. */
  lemma {:induction false} PrintedFields(i: Instant)
    ensures var t := Printed(i);
      && |t| == 27 && t[4] == 45 && t[7] == 45 && t[10] == 84 && t[13] == 58 && t[16] == 58 && t[19] == 46 && t[26] == 90
      && t[0..4] == Padded(i.year, 4) && t[5..7] == Padded(i.month, 2) && t[8..10] == Padded(i.day, 2)
      && t[11..13] == Padded(i.hour, 2) && t[14..16] == Padded(i.minute, 2) && t[17..19] == Padded(i.second, 2)
      && t[20..26] == Padded(i.micro, 6)
  {
    hide Padded;
    var t := Printed(i);
    Cut(t, [], Padded(i.year, 4), t[4..]);
    Cut(t, t[..5], Padded(i.month, 2), t[7..]);
    Cut(t, t[..8], Padded(i.day, 2), t[10..]);
    Cut(t, t[..11], Padded(i.hour, 2), t[13..]);
    Cut(t, t[..14], Padded(i.minute, 2), t[16..]);
    Cut(t, t[..17], Padded(i.second, 2), t[19..]);
    Cut(t, t[..20], Padded(i.micro, 6), t[26..]);
  }

  lemma {:induction false} Cut(t: Text, before: Text, field: Text, after: Text)
    requires t == before + field + after
    ensures t[|before|..|before| + |field|] == field
  {
  }

  lemma {:induction false} DateFields(t: Text, from: nat, to: nat)
    requires |t| == 27 && from <= to <= 10
    ensures t[..10][from..to] == t[from..to]
    ensures DigitsAt(t[..10], from, to) <==> DigitsAt(t, from, to)
  {
  }

  /** A timestamp is the printed instant that it denotes. */
  lemma {:induction false} TimestampIsPrinted(t: Text)
    requires IsTimestamp(t)
    ensures t == Printed(InstantOf(t)) && IsInstant(InstantOf(t)) && InstantOf(t).year < 10_000
  {
    hide Padded, NatValue, DaysIn;
    Powers();
    DateFields(t, 0, 4);
    DateFields(t, 5, 7);
    DateFields(t, 8, 10);
    FieldIsPadded(t, 0, 4);
    FieldIsPadded(t, 5, 7);
    FieldIsPadded(t, 8, 10);
    FieldIsPadded(t, 11, 13);
    FieldIsPadded(t, 14, 16);
    FieldIsPadded(t, 17, 19);
    FieldIsPadded(t, 20, 26);
    assert t[4] == 45 && t[7] == 45 by {
      assert t[..10][4] == 45 && t[..10][7] == 45;
    }
    SameFields(t, InstantOf(t));
  }

  lemma {:induction false} SameFields(t: Text, i: Instant)
    requires |t| == 27 && t[4] == 45 && t[7] == 45 && t[10] == 84 && t[13] == 58 && t[16] == 58 && t[19] == 46 && t[26] == 90
    requires t[0..4] == Padded(i.year, 4) && t[5..7] == Padded(i.month, 2) && t[8..10] == Padded(i.day, 2)
    requires t[11..13] == Padded(i.hour, 2) && t[14..16] == Padded(i.minute, 2) && t[17..19] == Padded(i.second, 2)
    requires t[20..26] == Padded(i.micro, 6)
    ensures t == Printed(i)
  {
    hide Padded;
    assert t == t[0..4] + [t[4]] + t[5..7] + [t[7]] + t[8..10] + [t[10]] + t[11..13] + [t[13]] + t[14..16] + [t[16]] + t[17..19] + [t[19]] + t[20..26] + [t[26]];
  }

  lemma {:induction false} PrintedIsTimestamp(i: Instant)
    requires IsInstant(i) && i.year < 10_000
    ensures IsTimestamp(Printed(i)) && InstantOf(Printed(i)) == i
  {
    hide Padded, NatValue, Printed;
    var t := Printed(i);
    PrintedFields(i);
    Powers();
    DateFields(t, 0, 4);
    DateFields(t, 5, 7);
    DateFields(t, 8, 10);
    SmallDay(i);
    PaddedReads(i.year, 4);
    PaddedReads(i.month, 2);
    PaddedReads(i.day, 2);
    PaddedReads(i.hour, 2);
    PaddedReads(i.minute, 2);
    PaddedReads(i.second, 2);
    PaddedReads(i.micro, 6);
    assert t[..10][4] == t[4] && t[..10][7] == t[7];
  }

  lemma {:induction false} SmallDay(i: Instant)
    requires IsInstant(i)
    ensures i.day < 100
  {
  }

  /** The accepted timestamps are exactly the printed instants of the years 1 to 9999. */
  lemma {:induction false} TimestampsExactly(t: Text)
    ensures IsTimestamp(t) <==> exists i :: IsInstant(i) && i.year < 10_000 && t == Printed(i)
  {
    hide IsTimestamp, Printed, IsInstant;
    if IsTimestamp(t) {
      TimestampIsPrinted(t);
    }
    if i :| IsInstant(i) && i.year < 10_000 && t == Printed(i) {
      PrintedIsTimestamp(i);
    }
  }
}
