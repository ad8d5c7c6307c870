/**
 * Calendar dates of the proleptic Gregorian calendar, as `java.time.LocalDate`
 * represents them: a year, a month 1..12 and a day of that month. Years are
 * unbounded here (LocalDate limits them to +/-999,999,999).
 */
module Dates {

  datatype Date = Date(year: int, month: int, day: int)

  /** Leap years of the proleptic Gregorian calendar (IsoChronology.isLeapYear). */
  predicate IsLeapYear(year: int) {
    year % 4 == 0 && (year % 100 != 0 || year % 400 == 0)
  }

  /** Number of days in a month (LocalDate.lengthOfMonth). */
  function LengthOfMonth(year: int, month: int): (n: int)
    requires 1 <= month <= 12
    ensures 28 <= n <= 31
    ensures n == 28 <==> month == 2 && !IsLeapYear(year)
    ensures n == 29 <==> month == 2 && IsLeapYear(year)
  {
    if month == 2 then (if IsLeapYear(year) then 29 else 28)
    else if month == 4 || month == 6 || month == 9 || month == 11 then 30
    else 31
  }

  predicate IsValid(d: Date) {
    1 <= d.month <= 12 && 1 <= d.day <= LengthOfMonth(d.year, d.month)
  }

  /** A date that LocalDate can hold: every value of this type names a real day. */
  type LocalDate = d: Date | IsValid(d) witness Date(1970, 1, 1)

  /** `a.isBefore(b)`: chronological order is lexicographic on (year, month, day). */
  predicate IsBefore(a: Date, b: Date) {
    a.year < b.year || (a.year == b.year && (a.month < b.month || (a.month == b.month && a.day < b.day)))
  }

  /** `a.isAfter(b)`. */
  predicate IsAfter(a: Date, b: Date) {
    IsBefore(b, a)
  }

  /** `isBefore` is a strict total order, so `compareTo` is well defined. */
  lemma BeforeIsStrictTotalOrder(a: Date, b: Date, c: Date)
    ensures !IsBefore(a, a)
    ensures IsBefore(a, b) ==> !IsBefore(b, a)
    ensures IsBefore(a, b) && IsBefore(b, c) ==> IsBefore(a, c)
    ensures a == b || IsBefore(a, b) || IsBefore(b, a)
  {
  }

  /** The day before `d`, borrowing across month and year boundaries. */
  function PreviousDay(d: LocalDate): (p: LocalDate)
    ensures IsBefore(p, d)
  {
    if d.day > 1 then Date(d.year, d.month, d.day - 1)
    else if d.month > 1 then Date(d.year, d.month - 1, LengthOfMonth(d.year, d.month - 1))
    else Date(d.year - 1, 12, 31)
  }

  /** The day after `d`, carrying across month and year boundaries. */
  function NextDay(d: LocalDate): (n: LocalDate)
    ensures IsBefore(d, n)
  {
    if d.day < LengthOfMonth(d.year, d.month) then Date(d.year, d.month, d.day + 1)
    else if d.month < 12 then Date(d.year, d.month + 1, 1)
    else Date(d.year + 1, 1, 1)
  }

  /** Stepping a day back and a day forward are inverse to each other. */
  lemma NextDayUndoesPreviousDay(d: LocalDate)
    ensures NextDay(PreviousDay(d)) == d
    ensures PreviousDay(NextDay(d)) == d
  {
  }

  /** No valid date lies strictly between `PreviousDay(d)` and `d`. */
  lemma PreviousDayIsImmediate(d: LocalDate, e: LocalDate)
    requires IsBefore(e, d)
    ensures !IsBefore(PreviousDay(d), e)
  {
  }

  /** No valid date lies strictly between `d` and `NextDay(d)`. */
  lemma NextDayIsImmediate(d: LocalDate, e: LocalDate)
    requires IsBefore(d, e)
    ensures !IsBefore(e, NextDay(d))
  {
  }

  /** `d.minusDays(n)` for n >= 0. */
  function MinusDays(d: LocalDate, n: nat): (r: LocalDate)
    ensures n > 0 ==> IsBefore(r, d)
    decreases n
  {
    if n == 0 then d
    else
      var r' := MinusDays(d, n - 1);
      BeforeIsStrictTotalOrder(PreviousDay(r'), r', d);
      PreviousDay(r')
  }

  /** `d.plusDays(n)` for n >= 0. */
  function PlusDays(d: LocalDate, n: nat): (r: LocalDate)
    ensures n > 0 ==> IsBefore(d, r)
    decreases n
  {
    if n == 0 then d
    else
      var r := PlusDays(NextDay(d), n - 1);
      BeforeIsStrictTotalOrder(d, NextDay(d), r);
      r
  }

  /** Going n days back and n days forward returns to the same date. */
  lemma {:induction false} PlusDaysUndoesMinusDays(d: LocalDate, n: nat)
    ensures PlusDays(MinusDays(d, n), n) == d
    decreases n
  {
    if n > 0 {
      var r := MinusDays(d, n - 1);
      NextDayUndoesPreviousDay(r);
      PlusDaysUndoesMinusDays(d, n - 1);
    }
  }

  /** `d.minusWeeks(w)`, which LocalDate computes as `d.minusDays(7 * w)`. */
  function MinusWeeks(d: LocalDate, w: nat): (r: LocalDate)
    ensures w > 0 ==> IsBefore(r, d)
  {
    MinusDays(d, 7 * w)
  }

  /** Months counted from year 0: the quantity minusMonths subtracts from. */
  function MonthIndex(d: Date): int {
    d.year * 12 + d.month - 1
  }

  /**
   * `d.minusMonths(n)`: go back n calendar months and clamp the day to the
   * last day of the month reached (31 March minus one month is the last day
   * of February).
   */
  function MinusMonths(d: LocalDate, n: nat): (r: LocalDate)
    ensures MonthIndex(r) == MonthIndex(d) - n
    ensures r.day == if d.day <= LengthOfMonth(r.year, r.month) then d.day else LengthOfMonth(r.year, r.month)
    ensures n > 0 ==> IsBefore(r, d)
  {
    var total := MonthIndex(d) - n;
    var year, month := total / 12, total % 12 + 1;
    var last := LengthOfMonth(year, month);
    Date(year, month, if d.day <= last then d.day else last)
  }

  /** Day-of-month clamping at a leap-year February, and borrowing across a year. */
  lemma MinusExamples()
    ensures MinusMonths(Date(2024, 3, 31), 1) == Date(2024, 2, 29)
    ensures MinusMonths(Date(2023, 3, 31), 1) == Date(2023, 2, 28)
    ensures MinusMonths(Date(2024, 1, 15), 1) == Date(2023, 12, 15)
    ensures MinusDays(Date(2024, 3, 1), 1) == Date(2024, 2, 29)
    ensures MinusDays(Date(2025, 1, 1), 1) == Date(2024, 12, 31)
  {
  }
}
