/** The names of snapshots: local times formatted as YYYYMMDD-hhmmss (internal/pipeline/stage_publish.go). */
module Timestamps {
  import opened Names
  import opened Decimals

  datatype Time = Time(year: nat, month: nat, day: nat, hour: nat, minute: nat, second: nat)

  predicate IsLeap(year: nat) { year % 4 == 0 && (year % 100 != 0 || year % 400 == 0) }

  function MonthDays(year: nat, month: nat): nat {
    if month == 2 then (if IsLeap(year) then 29 else 28)
    else if month == 4 || month == 6 || month == 9 || month == 11 then 30
    else 31
  }

  /** A date of the calendar with four digits for the year, and a time of day. */
  predicate OnCalendar(t: Time) {
    && t.year <= 9999 && 1 <= t.month <= 12 && 1 <= t.day <= MonthDays(t.year, t.month)
    && t.hour < 24 && t.minute < 60 && t.second < 60
  }

  function YearDays(year: nat): nat { if IsLeap(year) then 366 else 365 }

  function DaysBeforeYear(year: nat): nat {
    if year == 0 then 0 else DaysBeforeYear(year - 1) + YearDays(year - 1)
  }

  function DaysBeforeMonth(year: nat, month: nat): nat {
    if month <= 1 then 0 else DaysBeforeMonth(year, month - 1) + MonthDays(year, month - 1)
  }

  /** The days from the start of year 0. */
  function Days(t: Time): int { DaysBeforeYear(t.year) + DaysBeforeMonth(t.year, t.month) + t.day - 1 }

  /** The seconds from the start of year 0. */
  function Seconds(t: Time): int { ((Days(t) * 24 + t.hour) * 60 + t.minute) * 60 + t.second }

  function ClockText(t: Time): string {
    Padded(t.hour, 2) + (Padded(t.minute, 2) + Padded(t.second, 2))
  }

  /** `Format("20060102-150405")` */
  function Stamp(t: Time): string {
    Padded(t.year, 4) + (Padded(t.month, 2) + (Padded(t.day, 2) + ("-" + ClockText(t))))
  }

  // ---- the calendar ----

  lemma {:induction false} MonthsAdd(year: nat, a: nat, b: nat)
    requires 1 <= a < b
    ensures DaysBeforeMonth(year, a) + MonthDays(year, a) <= DaysBeforeMonth(year, b)
    decreases b
  {
    if a < b - 1 { MonthsAdd(year, a, b - 1); }
  }

  lemma {:induction false} YearsAdd(a: nat, b: nat)
    requires a < b
    ensures DaysBeforeYear(a) + YearDays(a) <= DaysBeforeYear(b)
    decreases b
  {
    if a < b - 1 { YearsAdd(a, b - 1); }
  }

  lemma WholeYear(year: nat)
    ensures DaysBeforeMonth(year, 13) == YearDays(year)
  {
    NextMonth(year, 1); NextMonth(year, 2); NextMonth(year, 3); NextMonth(year, 4);
    NextMonth(year, 5); NextMonth(year, 6); NextMonth(year, 7); NextMonth(year, 8);
    NextMonth(year, 9); NextMonth(year, 10); NextMonth(year, 11); NextMonth(year, 12);
  }

  lemma NextMonth(year: nat, month: nat)
    requires month >= 1
    ensures DaysBeforeMonth(year, month + 1) == DaysBeforeMonth(year, month) + MonthDays(year, month)
  {
  }

  /** The order of dates, year first. */
  predicate EarlierDate(a: Time, b: Time) {
    || a.year < b.year
    || (a.year == b.year && (a.month < b.month || (a.month == b.month && a.day < b.day)))
  }

  predicate EarlierClock(a: Time, b: Time) {
    || a.hour < b.hour
    || (a.hour == b.hour && (a.minute < b.minute || (a.minute == b.minute && a.second < b.second)))
  }

  predicate SameDate(a: Time, b: Time) { a.year == b.year && a.month == b.month && a.day == b.day }

  lemma DatesCount(a: Time, b: Time)
    requires OnCalendar(a) && OnCalendar(b) && EarlierDate(a, b)
    ensures Days(a) < Days(b)
  {
    hide MonthDays, YearDays, DaysBeforeYear, DaysBeforeMonth;
    if a.year < b.year {
      YearsAdd(a.year, b.year);
      WholeYear(a.year);
      MonthsAdd(a.year, a.month, 13);
    } else if a.month < b.month {
      MonthsAdd(a.year, a.month, b.month);
    }
  }

  /** Counting seconds keeps the order of the fields. */
  lemma TimesCount(a: Time, b: Time)
    requires OnCalendar(a) && OnCalendar(b)
    ensures Seconds(a) < Seconds(b) <==> EarlierDate(a, b) || (SameDate(a, b) && EarlierClock(a, b))
    ensures Seconds(a) == Seconds(b) <==> a == b
  {
    hide Days, MonthDays;
    if EarlierDate(a, b) { DatesCount(a, b); }
    if EarlierDate(b, a) { DatesCount(b, a); }
    if SameDate(a, b) { SameDays(a, b); }
  }

  lemma SameDays(a: Time, b: Time)
    requires SameDate(a, b)
    ensures Days(a) == Days(b)
  {
  }

  // ---- the names ----

  lemma ClockParts(a: Time, b: Time)
    ensures Less(ClockText(a), ClockText(b)) <==>
      || Less(Padded(a.hour, 2), Padded(b.hour, 2))
      || (Padded(a.hour, 2) == Padded(b.hour, 2) &&
          (Less(Padded(a.minute, 2), Padded(b.minute, 2)) ||
           (Padded(a.minute, 2) == Padded(b.minute, 2) && Less(Padded(a.second, 2), Padded(b.second, 2)))))
    ensures ClockText(a) == ClockText(b) <==>
      Padded(a.hour, 2) == Padded(b.hour, 2) && Padded(a.minute, 2) == Padded(b.minute, 2) &&
      Padded(a.second, 2) == Padded(b.second, 2)
  {
    hide Less, Padded;
    LessConcat(Padded(a.minute, 2), Padded(a.second, 2), Padded(b.minute, 2), Padded(b.second, 2));
    LessConcat(Padded(a.hour, 2), Padded(a.minute, 2) + Padded(a.second, 2),
               Padded(b.hour, 2), Padded(b.minute, 2) + Padded(b.second, 2));
  }

  lemma DateParts(a: Time, b: Time, s: string, t: string)
    ensures var x, y := Padded(a.year, 4) + (Padded(a.month, 2) + (Padded(a.day, 2) + s)),
                        Padded(b.year, 4) + (Padded(b.month, 2) + (Padded(b.day, 2) + t));
      var sameYear, sameMonth := Padded(a.year, 4) == Padded(b.year, 4), Padded(a.month, 2) == Padded(b.month, 2);
      var sameDay := Padded(a.day, 2) == Padded(b.day, 2);
      && (Less(x, y) <==>
            || Less(Padded(a.year, 4), Padded(b.year, 4))
            || (sameYear && Less(Padded(a.month, 2), Padded(b.month, 2)))
            || (sameYear && sameMonth && Less(Padded(a.day, 2), Padded(b.day, 2)))
            || (sameYear && sameMonth && sameDay && Less(s, t)))
      && (x == y <==> sameYear && sameMonth && sameDay && s == t)
  {
    hide Less, Padded;
    LessConcat(Padded(a.day, 2), s, Padded(b.day, 2), t);
    LessConcat(Padded(a.month, 2), Padded(a.day, 2) + s, Padded(b.month, 2), Padded(b.day, 2) + t);
    LessConcat(Padded(a.year, 4), Padded(a.month, 2) + (Padded(a.day, 2) + s),
               Padded(b.year, 4), Padded(b.month, 2) + (Padded(b.day, 2) + t));
  }

  /** The names of two times are in the order of the times, and are equal only for equal times. */
  lemma StampOrder(a: Time, b: Time)
    requires OnCalendar(a) && OnCalendar(b)
    ensures Less(Stamp(a), Stamp(b)) <==> Seconds(a) < Seconds(b)
    ensures Stamp(a) == Stamp(b) <==> a == b
  {
    hide Less, Padded, Seconds, Pow10, ClockText;
    SmallPowers();
    LongestMonth(a);
    LongestMonth(b);
    TimesCount(a, b);
    PaddedOrder(a.year, b.year, 4);
    PaddedOrder(a.month, b.month, 2);
    PaddedOrder(a.day, b.day, 2);
    PaddedOrder(a.hour, b.hour, 2);
    PaddedOrder(a.minute, b.minute, 2);
    PaddedOrder(a.second, b.second, 2);
    ClockParts(a, b);
    LessConcat("-", ClockText(a), "-", ClockText(b));
    LessIrreflexive("-");
    DateParts(a, b, "-" + ClockText(a), "-" + ClockText(b));
  }

  lemma LongestMonth(t: Time)
    requires OnCalendar(t)
    ensures t.day <= 31
  {
  }
}
