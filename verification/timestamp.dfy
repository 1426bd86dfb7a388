/** Naive calendar timestamps with second precision (src/timestamp.rs):
    chronological order, flooring to a granularity, and shifting by whole
    units of a granularity. */
module Timestamps {

  /** The five retention granularities, finest first (src/timestamp.rs:75-82). */
  datatype Range = Minute | Hour | Day | Month | Year {
    /** Position on the granularity ladder: Minute is 0, Year is 4. */
    function Rank(): nat {
      match this
      case Minute => 0
      case Hour => 1
      case Day => 2
      case Month => 3
      case Year => 4
    }

    /** Minute, Hour and Day shift by a fixed duration; Month and Year by calendar months. */
    predicate IsFixedDuration() {
      Rank() <= 2
    }
  }

  /** A naive (zone-less) calendar date and time of day. */
  datatype DateTime = DateTime(year: int, month: int, day: int, hour: int, minute: int, second: int)

  /** Proleptic Gregorian leap years (year 0 is a leap year). */
  predicate IsLeapYear(y: int) {
    y % 4 == 0 && (y % 100 != 0 || y % 400 == 0)
  }

  function DaysInMonth(y: int, m: int): (n: int)
    requires 1 <= m <= 12
    ensures 28 <= n <= 31
  {
    if m == 2 then (if IsLeapYear(y) then 29 else 28)
    else if m == 4 || m == 6 || m == 9 || m == 11 then 30
    else 31
  }

  predicate Valid(d: DateTime) {
    && 1 <= d.month <= 12
    && 1 <= d.day <= DaysInMonth(d.year, d.month)
    && 0 <= d.hour < 24
    && 0 <= d.minute < 60
    && 0 <= d.second < 60
  }

  /** A valid calendar instant; time zone and nanoseconds are not modelled. */
  type Timestamp = d: DateTime | Valid(d) witness DateTime(1970, 1, 1, 0, 0, 0)

  // ---------------------------------------------------------------------
  // Order
  // ---------------------------------------------------------------------

  /** Strict order: lexicographic on (year, month, day, hour, minute, second). */
  predicate Before(a: DateTime, b: DateTime) {
    || a.year < b.year
    || (a.year == b.year && a.month < b.month)
    || (a.year == b.year && a.month == b.month && a.day < b.day)
    || (a.year == b.year && a.month == b.month && a.day == b.day && a.hour < b.hour)
    || (a.year == b.year && a.month == b.month && a.day == b.day && a.hour == b.hour
        && a.minute < b.minute)
    || (a.year == b.year && a.month == b.month && a.day == b.day && a.hour == b.hour
        && a.minute == b.minute && a.second < b.second)
  }

  predicate NotAfter(a: DateTime, b: DateTime) {
    a == b || Before(a, b)
  }

  // ---------------------------------------------------------------------
  // Absolute time: a second count that the order above agrees with
  // ---------------------------------------------------------------------

  function DaysInYear(y: int): int {
    if IsLeapYear(y) then 366 else 365
  }

  /** Days from 0000-01-01 to the first day of year y (negative before year 0). */
  function DaysBeforeYear(y: int): int
    decreases if y < 0 then -y else y
  {
    if y == 0 then 0
    else if y > 0 then DaysBeforeYear(y - 1) + DaysInYear(y - 1)
    else DaysBeforeYear(y + 1) - DaysInYear(y)
  }

  /** Days from the first of January of year y to the first day of month m. */
  function DaysBeforeMonth(y: int, m: int): int
    requires 1 <= m <= 12
  {
    var common :=
      if m == 1 then 0 else if m == 2 then 31 else if m == 3 then 59
      else if m == 4 then 90 else if m == 5 then 120 else if m == 6 then 151
      else if m == 7 then 181 else if m == 8 then 212 else if m == 9 then 243
      else if m == 10 then 273 else if m == 11 then 304 else 334;
    common + (if m > 2 && IsLeapYear(y) then 1 else 0)
  }

  function DayNumber(t: Timestamp): int {
    DaysBeforeYear(t.year) + DaysBeforeMonth(t.year, t.month) + t.day - 1
  }

  function HourNumber(t: Timestamp): int {
    DayNumber(t) * 24 + t.hour
  }

  function MinuteNumber(t: Timestamp): int {
    HourNumber(t) * 60 + t.minute
  }

  /** Seconds since 0000-01-01 00:00:00. */
  function Seconds(t: Timestamp): int {
    MinuteNumber(t) * 60 + t.second
  }

  lemma MonthEnd(y: int, m: int)
    requires 1 <= m <= 12
    ensures DaysBeforeMonth(y, m) + DaysInMonth(y, m)
            == if m == 12 then DaysInYear(y) else DaysBeforeMonth(y, m + 1)
  {
  }

  lemma YearEnd(y: int)
    ensures DaysBeforeYear(y + 1) == DaysBeforeYear(y) + DaysInYear(y)
  {
  }

  lemma {:induction false} LaterYearStartsLater(a: int, b: int)
    requires a < b
    ensures DaysBeforeYear(a) + DaysInYear(a) <= DaysBeforeYear(b)
    decreases b - a
  {
    YearEnd(a);
    if a + 1 < b {
      LaterYearStartsLater(a + 1, b);
      YearEnd(a + 1);
    }
  }

  lemma LaterMonthStartsLater(y: int, a: int, b: int)
    requires 1 <= a < b <= 12
    ensures DaysBeforeMonth(y, a) + DaysInMonth(y, a) <= DaysBeforeMonth(y, b)
  {
  }

  lemma DayWithinYear(t: Timestamp)
    ensures DaysBeforeYear(t.year) <= DayNumber(t) < DaysBeforeYear(t.year) + DaysInYear(t.year)
  {
    MonthEnd(t.year, t.month);
    if t.month < 12 {
      LaterMonthStartsLater(t.year, t.month, 12);
      MonthEnd(t.year, 12);
    }
  }

  /** The lexicographic order is chronological order. */
  lemma BeforeIsEarlier(a: Timestamp, b: Timestamp)
    requires Before(a, b)
    ensures Seconds(a) < Seconds(b)
  {
    if a.year < b.year {
      DayWithinYear(a);
      DayWithinYear(b);
      LaterYearStartsLater(a.year, b.year);
    } else if a.year == b.year && a.month < b.month {
      MonthEnd(a.year, a.month);
      LaterMonthStartsLater(a.year, a.month, b.month);
    }
    assert DayNumber(a) <= DayNumber(b);
  }

  lemma OrderIsChronological(a: Timestamp, b: Timestamp)
    ensures Before(a, b) <==> Seconds(a) < Seconds(b)
    ensures a == b <==> Seconds(a) == Seconds(b)
  {
    if Before(a, b) {
      BeforeIsEarlier(a, b);
    } else if Before(b, a) {
      BeforeIsEarlier(b, a);
    }
  }

  // ---------------------------------------------------------------------
  // Floor (src/timestamp.rs:43-61)
  // ---------------------------------------------------------------------

  /** t is the first second of its r-unit: every field finer than r is at its minimum. */
  predicate IsFloored(t: DateTime, r: Range) {
    && t.second == 0
    && (r.Rank() >= 1 ==> t.minute == 0)
    && (r.Rank() >= 2 ==> t.hour == 0)
    && (r.Rank() >= 3 ==> t.day == 1)
    && (r.Rank() >= 4 ==> t.month == 1)
  }

  /** a and b lie in the same r-unit: every field at least as coarse as r agrees. */
  predicate SameUnit(a: DateTime, b: DateTime, r: Range) {
    && a.year == b.year
    && (r.Rank() <= 3 ==> a.month == b.month)
    && (r.Rank() <= 2 ==> a.day == b.day)
    && (r.Rank() <= 1 ==> a.hour == b.hour)
    && (r.Rank() <= 0 ==> a.minute == b.minute)
  }

  /** Truncate t to the start of its r-unit; each level is built from the previous one. */
  function Floor(t: Timestamp, r: Range): (f: Timestamp)
    ensures IsFloored(f, r)
    ensures SameUnit(f, t, r)
  {
    var minute := t.(second := 0);
    var hour := minute.(minute := 0);
    var day := hour.(hour := 0);
    var month := day.(day := 1);
    var year := month.(month := 1);
    match r
    case Minute => minute
    case Hour => hour
    case Day => day
    case Month => month
    case Year => year
  }

  /** The floor is not after the instant floored. */
  lemma FloorNotAfter(t: Timestamp, r: Range)
    ensures NotAfter(Floor(t, r), t)
  {
  }

  /** A floored value is its own floor, so flooring is idempotent. */
  lemma FloorFixesFloored(t: Timestamp, r: Range)
    ensures IsFloored(t, r) <==> Floor(t, r) == t
    ensures Floor(Floor(t, r), r) == Floor(t, r)
  {
  }

  /** Flooring to a finer range first does not change the coarser floor. */
  lemma FloorAbsorbsFiner(t: Timestamp, fine: Range, coarse: Range)
    requires fine.Rank() <= coarse.Rank()
    ensures Floor(Floor(t, fine), coarse) == Floor(t, coarse)
    ensures NotAfter(Floor(t, coarse), Floor(t, fine))
  {
  }

  lemma FloorLadder(t: Timestamp)
    ensures NotAfter(Floor(t, Year), Floor(t, Month))
    ensures NotAfter(Floor(t, Month), Floor(t, Day))
    ensures NotAfter(Floor(t, Day), Floor(t, Hour))
    ensures NotAfter(Floor(t, Hour), Floor(t, Minute))
    ensures NotAfter(Floor(t, Minute), t)
  {
  }

  /** The floor is the latest r-floored instant not after t. */
  lemma FloorIsGreatestFlooredBelow(t: Timestamp, u: Timestamp, r: Range)
    requires IsFloored(u, r)
    ensures NotAfter(u, t) <==> NotAfter(u, Floor(t, r))
  {
  }

  lemma NotAfterTransitive(a: DateTime, b: DateTime, c: DateTime)
    requires NotAfter(a, b) && NotAfter(b, c)
    ensures NotAfter(a, c)
  {
  }

  lemma {:induction false} FloorMonotone(a: Timestamp, b: Timestamp, r: Range)
    requires NotAfter(a, b)
    ensures NotAfter(Floor(a, r), Floor(b, r))
  {
    NotAfterTransitive(Floor(a, r), a, b);
    FloorIsGreatestFlooredBelow(b, Floor(a, r), r);
  }

  // ---------------------------------------------------------------------
  // Fixed-duration shifts (src/timestamp.rs:32-34)
  // ---------------------------------------------------------------------

  function UnitSeconds(r: Range): int
    requires r.IsFixedDuration()
  {
    match r
    case Minute => 60
    case Hour => 3600
    case Day => 86400
  }

  /** The next or previous calendar day at the same time of day. */
  function StepDay(t: Timestamp, forward: bool): (u: Timestamp)
    ensures DayNumber(u) == DayNumber(t) + (if forward then 1 else -1)
    ensures u.hour == t.hour && u.minute == t.minute && u.second == t.second
  {
    MonthEnd(t.year, t.month);
    YearEnd(t.year);
    if forward then
      if t.day < DaysInMonth(t.year, t.month) then t.(day := t.day + 1)
      else if t.month < 12 then t.(month := t.month + 1, day := 1)
      else t.(year := t.year + 1, month := 1, day := 1)
    else
      if t.day > 1 then t.(day := t.day - 1)
      else if t.month > 1 then
        MonthEnd(t.year, t.month - 1);
        t.(month := t.month - 1, day := DaysInMonth(t.year, t.month - 1))
      else
        YearEnd(t.year - 1);
        MonthEnd(t.year - 1, 12);
        t.(year := t.year - 1, month := 12, day := 31)
  }

  /** One hour later or earlier, carrying into the day. */
  function StepHour(t: Timestamp, forward: bool): (u: Timestamp)
    ensures HourNumber(u) == HourNumber(t) + (if forward then 1 else -1)
    ensures u.minute == t.minute && u.second == t.second
  {
    if forward then
      if t.hour < 23 then t.(hour := t.hour + 1) else StepDay(t, true).(hour := 0)
    else
      if t.hour > 0 then t.(hour := t.hour - 1) else StepDay(t, false).(hour := 23)
  }

  /** One minute later or earlier, carrying into the hour. */
  function StepMinute(t: Timestamp, forward: bool): (u: Timestamp)
    ensures MinuteNumber(u) == MinuteNumber(t) + (if forward then 1 else -1)
    ensures u.second == t.second
  {
    if forward then
      if t.minute < 59 then t.(minute := t.minute + 1) else StepHour(t, true).(minute := 0)
    else
      if t.minute > 0 then t.(minute := t.minute - 1) else StepHour(t, false).(minute := 59)
  }

  /** One unit of a fixed-duration range later or earlier. */
  function Step(t: Timestamp, r: Range, forward: bool): (u: Timestamp)
    requires r.IsFixedDuration()
    ensures Seconds(u) == Seconds(t) + (if forward then UnitSeconds(r) else -UnitSeconds(r))
    ensures IsFloored(t, r) ==> IsFloored(u, r)
  {
    match r
    case Minute => StepMinute(t, forward)
    case Hour => StepHour(t, forward)
    case Day => StepDay(t, forward)
  }

  /** Add amount units of a fixed-duration range, as a chrono `Duration` does on naive time. */
  function ShiftFixed(t: Timestamp, r: Range, amount: int): (u: Timestamp)
    requires r.IsFixedDuration()
    ensures Seconds(u) == Seconds(t) + amount * UnitSeconds(r)
    ensures IsFloored(t, r) ==> IsFloored(u, r)
    decreases if amount < 0 then -amount else amount
  {
    if amount == 0 then t
    else if amount > 0 then
      var u := ShiftFixed(Step(t, r, true), r, amount - 1);
      UnitMultiple(amount, UnitSeconds(r));
      u
    else
      var u := ShiftFixed(Step(t, r, false), r, amount + 1);
      UnitMultiple(amount, UnitSeconds(r));
      u
  }

  lemma UnitMultiple(amount: int, unit: int)
    ensures (amount - 1) * unit + unit == amount * unit
    ensures (amount + 1) * unit - unit == amount * unit
  {
  }

  // ---------------------------------------------------------------------
  // Calendar-month shifts (src/timestamp.rs:35-36, chronoutil's month arithmetic)
  // ---------------------------------------------------------------------

  /** Rust's `/` on integers: the quotient truncated toward zero. */
  function TruncDiv(a: int, b: int): int
    requires b > 0
  {
    if a >= 0 then a / b else -((-a) / b)
  }

  /** Rust's `%` on integers: the remainder takes the sign of the dividend. */
  function TruncRem(a: int, b: int): (r: int)
    requires b > 0
    ensures a == TruncDiv(a, b) * b + r
    ensures -b < r < b
    ensures a >= 0 ==> r >= 0
    ensures a < 0 ==> r <= 0
  {
    if a >= 0 then a % b else -((-a) % b)
  }

  /** chronoutil's `normalise_day`: clamp a day of month to the month's length. */
  function NormaliseDay(y: int, m: int, d: int): (n: int)
    requires 1 <= m <= 12
    requires 1 <= d <= 31
    ensures n == if d <= DaysInMonth(y, m) then d else DaysInMonth(y, m)
  {
    if d <= 28 then d
    else if m == 2 then (if IsLeapYear(y) then 29 else 28)
    else if d == 31 && (m == 4 || m == 6 || m == 9 || m == 11) then 30
    else d
  }

  /** Months since January of year 0. */
  function MonthIndex(t: DateTime): int {
    t.year * 12 + t.month - 1
  }

  /** chronoutil's `shift_months`: move the month, clamp the day, keep the time of day. */
  function ShiftMonths(t: Timestamp, months: int): (u: Timestamp)
    ensures MonthIndex(u) == MonthIndex(t) + months
    ensures u.day == if t.day <= DaysInMonth(u.year, u.month) then t.day else DaysInMonth(u.year, u.month)
    ensures u.hour == t.hour && u.minute == t.minute && u.second == t.second
  {
    var sum := t.month + months;
    var year := t.year + TruncDiv(sum, 12);
    var month := TruncRem(sum, 12);
    var year', month' := if month < 1 then year - 1 else year, if month < 1 then month + 12 else month;
    var day := NormaliseDay(year', month', t.day);
    DateTime(year', month', day, t.hour, t.minute, t.second)
  }

  // ---------------------------------------------------------------------
  // Shift (src/timestamp.rs:30-39)
  // ---------------------------------------------------------------------

  /** Shift t by amount units of r: fixed-duration for Minute, Hour and Day,
      calendar-relative (with day-of-month clamping) for Month and Year. */
  function Shift(t: Timestamp, r: Range, amount: int): Timestamp {
    match r
    case Minute => ShiftFixed(t, r, amount)
    case Hour => ShiftFixed(t, r, amount)
    case Day => ShiftFixed(t, r, amount)
    case Month => ShiftMonths(t, amount)
    case Year => ShiftMonths(t, amount * 12)
  }

  /** What a shift does for every range: Minute, Hour and Day move the second count by
      exactly amount units; Month and Year move the month index by amount or 12 * amount,
      clamp the day and keep the time of day. */
  lemma ShiftMoves(t: Timestamp, r: Range, amount: int)
    ensures r.IsFixedDuration() ==> Seconds(Shift(t, r, amount)) == Seconds(t) + amount * UnitSeconds(r)
    ensures !r.IsFixedDuration() ==>
              var u := Shift(t, r, amount);
              && MonthIndex(u) == MonthIndex(t) + (if r == Month then amount else 12 * amount)
              && u.day == (if t.day <= DaysInMonth(u.year, u.month) then t.day else DaysInMonth(u.year, u.month))
              && u.hour == t.hour && u.minute == t.minute && u.second == t.second
  {
  }

  lemma ShiftZero(t: Timestamp, r: Range)
    ensures Shift(t, r, 0) == t
  {
    if r.IsFixedDuration() {
      OrderIsChronological(t, Shift(t, r, 0));
    }
  }

  /** Minute, Hour and Day shifts move by exactly amount * 60, 3600 or 86400 seconds. */
  lemma ShiftFixedDuration(t: Timestamp, r: Range, amount: int)
    requires r.IsFixedDuration()
    ensures Seconds(Shift(t, r, amount)) == Seconds(t) + amount * UnitSeconds(r)
    ensures Shift(Shift(t, r, amount), r, -amount) == t
  {
    var u := Shift(t, r, amount);
    OrderIsChronological(t, Shift(u, r, -amount));
  }

  /** A Month or Year shift of a month-floored instant stays month-floored
      (year-floored for Year) and moves the month index by amount or 12 * amount. */
  lemma ShiftCalendar(t: Timestamp, r: Range, amount: int)
    requires r == Month || r == Year
    requires IsFloored(t, r)
    ensures IsFloored(Shift(t, r, amount), r)
    ensures MonthIndex(Shift(t, r, amount)) == MonthIndex(t) + (if r == Month then amount else 12 * amount)
    ensures Floor(Shift(t, r, amount), r) == Shift(t, r, amount)
    ensures Shift(Shift(t, r, amount), r, -amount) == t
  {
  }

  lemma FlooredMonthOrder(a: Timestamp, b: Timestamp)
    requires IsFloored(a, Month) && IsFloored(b, Month)
    requires MonthIndex(a) < MonthIndex(b)
    ensures Before(a, b)
  {
  }

  /** Shifting a floored instant further back gives a strictly earlier floored instant. */
  lemma ShiftBackIsEarlier(base: Timestamp, r: Range, i: int, j: int)
    requires 0 <= i < j
    requires IsFloored(base, r)
    ensures IsFloored(Shift(base, r, -i), r)
    ensures Before(Shift(base, r, -j), Shift(base, r, -i))
  {
    var a := Shift(base, r, -j);
    var b := Shift(base, r, -i);
    match r
    case Minute =>
      ShiftFixedDuration(base, r, -j);
      ShiftFixedDuration(base, r, -i);
      OrderIsChronological(a, b);
    case Hour =>
      ShiftFixedDuration(base, r, -j);
      ShiftFixedDuration(base, r, -i);
      OrderIsChronological(a, b);
    case Day =>
      ShiftFixedDuration(base, r, -j);
      ShiftFixedDuration(base, r, -i);
      OrderIsChronological(a, b);
    case Month =>
      ShiftCalendar(base, r, -j);
      ShiftCalendar(base, r, -i);
      FlooredMonthOrder(a, b);
    case Year =>
      ShiftCalendar(base, r, -j);
      ShiftCalendar(base, r, -i);
      FlooredMonthOrder(a, b);
  }
}
