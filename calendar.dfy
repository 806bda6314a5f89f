/** `effective_timestamp` of tools/ingest_multi_tickers.py: the trading date
    a headline counts for, with a weekend-only business-day calendar. */
module Calendar {
  import opened Text

  /** A naive timestamp, in whole seconds since 1970-01-01 00:00:00. */
  type Instant = int

  const SecondsPerDay := 86400

  /** The day number of a timestamp, counting from 1970-01-01. */
  function DayOf(t: Instant): int {
    t / SecondsPerDay
  }

  /** `ts.time()`, in seconds after midnight. */
  function TimeOfDay(t: Instant): int {
    t % SecondsPerDay
  }

  /** `normalize()`: midnight of a day. */
  function Midnight(day: int): Instant {
    day * SecondsPerDay
  }

  /** Monday is 0 and Sunday 6; 1970-01-01 was a Thursday. */
  function Weekday(day: int): int {
    (day + 3) % 7
  }

  /** Monday to Friday; no holiday calendar. */
  predicate IsBusinessDay(day: int) {
    Weekday(day) < 5
  }

  /** The date of `ts + BDay(1)`: Friday, Saturday and Sunday roll to the
      following Monday, any other day to the next day. */
  function NextBusinessDay(day: int): int {
    var w := Weekday(day);
    if w == 4 then day + 3 else if w == 5 then day + 2 else day + 1
  }

  /** `dtime(hh, mm)` in seconds after midnight; None where `dtime` raises
      ValueError. */
  function Cutoff(hh: int, mm: int): (c: Option<int>)
    ensures c.Some? <==> 0 <= hh < 24 && 0 <= mm < 60
    ensures c.Some? ==> 0 <= c.value < SecondsPerDay && c.value % 60 == 0
  {
    if 0 <= hh < 24 && 0 <= mm < 60 then Some(hh * 3600 + mm * 60) else None
  }

  /** `effective_timestamp`: midnight of the next business day when the
      time of day is strictly after the cutoff, midnight of the same day
      otherwise. */
  function EffectiveDate(t: Instant, cutoff: int): Instant {
    if TimeOfDay(t) > cutoff then Midnight(NextBusinessDay(DayOf(t))) else Midnight(DayOf(t))
  }

  lemma WeekdayStep(day: int)
    ensures Weekday(day + 1) == (Weekday(day) + 1) % 7
  {
    var q := (day + 3) / 7;
    assert day + 3 == 7 * q + Weekday(day);
    assert day + 4 == 7 * q + (Weekday(day) + 1);
  }

  lemma MidnightParts(day: int)
    ensures DayOf(Midnight(day)) == day && TimeOfDay(Midnight(day)) == 0
  {
  }

  /** The next business day is the first weekday after the day. */
  lemma NextBusinessDayIsFirstWeekdayAfter(day: int)
    ensures day < NextBusinessDay(day) && IsBusinessDay(NextBusinessDay(day))
    ensures forall d :: day < d < NextBusinessDay(day) ==> !IsBusinessDay(d)
    ensures Weekday(day) >= 4 ==> Weekday(NextBusinessDay(day)) == 0
  {
    WeekdayStep(day);
    WeekdayStep(day + 1);
    WeekdayStep(day + 2);
  }

  /** After the cutoff the effective date is midnight of the first weekday
      after the day (Monday for a Friday, Saturday or Sunday); up to and
      including the cutoff it is midnight of the same day. */
  lemma EffectiveDateCases(t: Instant, cutoff: int)
    ensures TimeOfDay(EffectiveDate(t, cutoff)) == 0
    ensures TimeOfDay(t) > cutoff ==>
      var d := DayOf(EffectiveDate(t, cutoff));
      DayOf(t) < d && IsBusinessDay(d) && (forall k :: DayOf(t) < k < d ==> !IsBusinessDay(k)) &&
      (Weekday(DayOf(t)) >= 4 ==> Weekday(d) == 0)
    ensures TimeOfDay(t) <= cutoff ==> EffectiveDate(t, cutoff) == Midnight(DayOf(t))
  {
    NextBusinessDayIsFirstWeekdayAfter(DayOf(t));
    MidnightParts(DayOf(t));
    MidnightParts(NextBusinessDay(DayOf(t)));
  }

  /** With the 15:00 cutoff, on Tuesday 2024-01-02 (day 19724): 14:59 and
      15:00:00 stay on the day, 15:00:01 moves to Wednesday. */
  lemma CutoffExample()
    ensures Cutoff(15, 0) == Some(54000)
    ensures Weekday(19724) == 1
    ensures EffectiveDate(Midnight(19724) + 14 * 3600 + 59 * 60, 54000) == Midnight(19724)
    ensures EffectiveDate(Midnight(19724) + 54000, 54000) == Midnight(19724)
    ensures EffectiveDate(Midnight(19724) + 54001, 54000) == Midnight(19725)
  {
    MidnightParts(19724);
  }

  /** A headline published on a weekend up to the cutoff keeps its weekend
      date, on which there is no bar. */
  lemma WeekendBeforeCutoff(t: Instant, cutoff: int)
    requires TimeOfDay(t) <= cutoff && !IsBusinessDay(DayOf(t))
    ensures !IsBusinessDay(DayOf(EffectiveDate(t, cutoff)))
  {
    MidnightParts(DayOf(t));
  }

  /** The effective date is not monotone in time: Friday 2024-01-05 16:00
      maps to Monday, Saturday 10:00 to Saturday. */
  lemma EffectiveDateNotMonotone()
    ensures Weekday(19727) == 4
    ensures EffectiveDate(Midnight(19727) + 57600, 54000) == Midnight(19730)
    ensures EffectiveDate(Midnight(19728) + 36000, 54000) == Midnight(19728)
  {
    MidnightParts(19727);
    MidnightParts(19728);
  }
}
