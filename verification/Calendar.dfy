/** The proleptic Gregorian calendar and the export periods cut from it.

    A day is counted from 0001-01-01 and a moment in microseconds from that day's midnight, UTC,
    so moments compare as their times do. Years have no upper end here. */
module Calendar {
  type Moment = nat

  const TICKS_PER_HOUR := 3_600_000_000
  const TICKS_PER_DAY := 86_400_000_000

  // ---------------------------------------------------------------- years and months

  predicate Leap(year: nat) {
    year % 4 == 0 && (year % 100 != 0 || year % 400 == 0)
  }

  function DaysInMonth(year: nat, month: nat): nat
    requires 1 <= month <= 12
  {
    if month == 2 then (if Leap(year) then 29 else 28)
    else if month == 4 || month == 6 || month == 9 || month == 11 then 30
    else 31
  }

  // Months are numbered through the years, January of year 1 being month 12.
  const FIRST_MONTH := 12

  function MonthLength(index: nat): (length: nat)
    requires FIRST_MONTH <= index
    ensures 28 <= length <= 31
  {
    DaysInMonth(index / 12, index % 12 + 1)
  }

  /** The first day of a month, every earlier month counted. */
  function MonthDay(index: nat): nat
    requires FIRST_MONTH <= index
  {
    if index == FIRST_MONTH then 0 else MonthDay(index - 1) + MonthLength(index - 1)
  }

  function DaysBeforeYear(year: nat): nat
    requires 1 <= year
  {
    var y := year - 1;
    365 * y + y / 4 - y / 100 + y / 400
  }

  function DaysBeforeMonth(year: nat, month: nat): nat
    requires 1 <= month <= 12
  {
    [0, 31, 59, 90, 120, 151, 181, 212, 243, 273, 304, 334][month - 1]
    + if month > 2 && Leap(year) then 1 else 0
  }

  lemma CenturiesStep(year: nat)
    requires 1 <= year
    ensures year / 4 == (year - 1) / 4 + (if year % 4 == 0 then 1 else 0)
    ensures year / 100 == (year - 1) / 100 + (if year % 100 == 0 then 1 else 0)
    ensures year / 400 == (year - 1) / 400 + (if year % 400 == 0 then 1 else 0)
  {
  }

  lemma HundredsAreFours(year: nat)
    requires year % 100 == 0
    ensures year % 4 == 0
  {
    var quarters := 25 * (year / 100);
    assert year == 4 * quarters;
    assert 4 * quarters % 4 == 0;
  }

  lemma FourHundredsAreHundreds(year: nat)
    requires year % 400 == 0
    ensures year % 100 == 0
  {
    var fourHundreds := year / 400;
    assert year == 100 * (4 * fourHundreds);
  }

  lemma MultiplesNest(year: nat)
    ensures year % 100 == 0 ==> year % 4 == 0
    ensures year % 400 == 0 ==> year % 100 == 0
  {
    if year % 100 == 0 {
      HundredsAreFours(year);
    }
    if year % 400 == 0 {
      FourHundredsAreHundreds(year);
    }
  }

  lemma DaysInYear(year: nat)
    requires 1 <= year
    ensures DaysBeforeYear(year + 1) == DaysBeforeYear(year) + (if Leap(year) then 366 else 365)
  {
    CenturiesStep(year);
    MultiplesNest(year);
  }

  /** Counting month by month agrees with the Gregorian leap rule in closed form. */
  lemma {:induction false} MonthDayClosed(year: nat, month: nat)
    requires 1 <= year && 1 <= month <= 12
    ensures MonthDay(12 * year + month - 1) == DaysBeforeYear(year) + DaysBeforeMonth(year, month)
    decreases year, month
  {
    var index := 12 * year + month - 1;
    if month > 1 {
      MonthDayClosed(year, month - 1);
      assert (index - 1) / 12 == year && (index - 1) % 12 + 1 == month - 1;
    } else if year > 1 {
      MonthDayClosed(year - 1, 12);
      DaysInYear(year - 1);
      assert (index - 1) / 12 == year - 1 && (index - 1) % 12 + 1 == 12;
    }
  }

  lemma {:induction false} MonthsIncrease(a: nat, b: nat)
    requires FIRST_MONTH <= a <= b
    ensures MonthDay(a) + (b - a) <= MonthDay(b)
    decreases b - a
  {
    if a < b {
      MonthsIncrease(a, b - 1);
    }
  }

  function MonthFrom(day: nat, index: nat): (found: nat)
    requires FIRST_MONTH <= index && MonthDay(index) <= day
    ensures FIRST_MONTH <= found && MonthDay(found) <= day < MonthDay(found + 1)
    decreases day - MonthDay(index)
  {
    if day < MonthDay(index + 1) then index else MonthFrom(day, index + 1)
  }

  /** The month holding a day. */
  function MonthOf(day: nat): (index: nat)
    ensures FIRST_MONTH <= index && MonthDay(index) <= day < MonthDay(index + 1)
  {
    MonthFrom(day, FIRST_MONTH)
  }

  lemma MonthIsUnique(day: nat, index: nat)
    requires FIRST_MONTH <= index && MonthDay(index) <= day < MonthDay(index + 1)
    ensures MonthOf(day) == index
  {
    var found := MonthOf(day);
    if found < index {
      MonthsIncrease(found + 1, index);
    } else if index < found {
      MonthsIncrease(index + 1, found);
    }
  }

  // ---------------------------------------------------------------- export periods

  datatype Period = Hour | Day | Month | All

  function PeriodStart(period: Period, moment: Moment): Moment {
    match period
    case Hour => moment / TICKS_PER_HOUR * TICKS_PER_HOUR
    case Day => moment / TICKS_PER_DAY * TICKS_PER_DAY
    case Month => MonthDay(MonthOf(moment / TICKS_PER_DAY)) * TICKS_PER_DAY
    case All => 0
  }

  predicate Aligned(period: Period, moment: Moment) {
    PeriodStart(period, moment) == moment
  }

  /** Whether a shift stays at or after the first representable moment. */
  predicate Shiftable(period: Period, start: Moment, count: int) {
    match period
    case Hour => 0 <= start + count * TICKS_PER_HOUR
    case Day => 0 <= start + count * TICKS_PER_DAY
    case Month => FIRST_MONTH <= MonthOf(start / TICKS_PER_DAY) + count
    case All => true
  }

  function PeriodShift(period: Period, start: Moment, count: int): Moment
    requires Aligned(period, start) && Shiftable(period, start, count)
  {
    match period
    case Hour => start + count * TICKS_PER_HOUR
    case Day => start + count * TICKS_PER_DAY
    case Month => MonthDay(MonthOf(start / TICKS_PER_DAY) + count) * TICKS_PER_DAY
    case All => start
  }

  function NextPeriod(period: Period, start: Moment): Moment
    requires Aligned(period, start)
  {
    PeriodShift(period, start, 1)
  }

  lemma MonthMoment(index: nat)
    requires FIRST_MONTH <= index
    ensures MonthOf(MonthDay(index) * TICKS_PER_DAY / TICKS_PER_DAY) == index
    ensures Aligned(Month, MonthDay(index) * TICKS_PER_DAY)
  {
    assert MonthDay(index) * TICKS_PER_DAY / TICKS_PER_DAY == MonthDay(index);
    MonthIsUnique(MonthDay(index), index);
  }

  /** Shifting keeps a start aligned, so the result is a period start again. */
  lemma ShiftAligned(period: Period, start: Moment, count: int)
    requires Aligned(period, start) && Shiftable(period, start, count)
    ensures Aligned(period, PeriodShift(period, start, count))
  {
    match period
    case Hour => assert start == start / TICKS_PER_HOUR * TICKS_PER_HOUR;
    case Day => assert start == start / TICKS_PER_DAY * TICKS_PER_DAY;
    case Month => MonthMoment(MonthOf(start / TICKS_PER_DAY) + count);
    case All =>
  }

  /** Shifts add up, so shifting by `-count` undoes shifting by `count`. */
  lemma ShiftsAdd(period: Period, start: Moment, first: int, second: int)
    requires Aligned(period, start) && Shiftable(period, start, first)
    requires Shiftable(period, start, first + second)
    ensures var middle := PeriodShift(period, start, first);
            && Aligned(period, middle)
            && Shiftable(period, middle, second)
            && PeriodShift(period, middle, second) == PeriodShift(period, start, first + second)
    ensures PeriodShift(period, start, 0) == start
  {
    ShiftAligned(period, start, first);
    if period == Month {
      MonthMoment(MonthOf(start / TICKS_PER_DAY) + first);
    }
  }

  /** The period holding a moment starts at or before it and ends after it. */
  lemma PeriodHolds(period: Period, moment: Moment)
    requires period != All
    ensures var start := PeriodStart(period, moment);
            && Aligned(period, start)
            && start <= moment < NextPeriod(period, start)
            && Aligned(period, NextPeriod(period, start))
  {
    if period == Month {
      MonthMoment(MonthOf(moment / TICKS_PER_DAY));
    }
    ShiftAligned(period, PeriodStart(period, moment), 1);
  }

  lemma NextIsLater(period: Period, start: Moment)
    requires period != All && Aligned(period, start)
    ensures start < NextPeriod(period, start)
    ensures Aligned(period, NextPeriod(period, start))
  {
    PeriodHolds(period, start);
  }

  lemma HourIsUnique(start: Moment, moment: Moment)
    requires start / TICKS_PER_HOUR * TICKS_PER_HOUR == start <= moment < start + TICKS_PER_HOUR
    ensures moment / TICKS_PER_HOUR * TICKS_PER_HOUR == start
  {
  }

  lemma DayIsUnique(start: Moment, moment: Moment)
    requires start / TICKS_PER_DAY * TICKS_PER_DAY == start <= moment < start + TICKS_PER_DAY
    ensures moment / TICKS_PER_DAY * TICKS_PER_DAY == start
  {
  }

  lemma MonthStartIsUnique(start: Moment, moment: Moment)
    requires Aligned(Month, start) && start <= moment < NextPeriod(Month, start)
    ensures PeriodStart(Month, moment) == start
  {
    var index := MonthOf(start / TICKS_PER_DAY);
    var day := moment / TICKS_PER_DAY;
    assert MonthDay(index) <= day < MonthDay(index + 1);
    MonthIsUnique(day, index);
  }

  /** No two periods share a moment: whichever aligned span holds it is its period. */
  lemma PeriodIsUnique(period: Period, start: Moment, moment: Moment)
    requires period != All && Aligned(period, start)
    requires start <= moment < NextPeriod(period, start)
    ensures PeriodStart(period, moment) == start
  {
    match period
    case Hour => HourIsUnique(start, moment);
    case Day => DayIsUnique(start, moment);
    case Month => MonthStartIsUnique(start, moment);
  }

  /** The exact test a file's range makes: a moment lies between a period's bounds precisely
      when that period is the one holding it. */
  lemma InPeriod(period: Period, start: Moment, moment: Moment)
    requires period != All && Aligned(period, start)
    ensures start <= moment < NextPeriod(period, start) <==> PeriodStart(period, moment) == start
  {
    if start <= moment < NextPeriod(period, start) {
      PeriodIsUnique(period, start, moment);
    }
    PeriodHolds(period, moment);
  }

  /** Later moments never belong to earlier periods. */
  lemma PeriodMonotone(period: Period, a: Moment, b: Moment)
    requires a <= b
    ensures PeriodStart(period, a) <= PeriodStart(period, b)
  {
    if period != All {
      PeriodHolds(period, a);
      PeriodHolds(period, b);
      if PeriodStart(period, b) < PeriodStart(period, a) {
        PeriodIsUnique(period, PeriodStart(period, b), a);
      }
    }
  }

  /** Between one period start and the next there is no other. */
  lemma NoStartBetween(period: Period, start: Moment, other: Moment)
    requires period != All && Aligned(period, start) && Aligned(period, other)
    ensures start < other ==> NextPeriod(period, start) <= other
  {
    if start < other < NextPeriod(period, start) {
      PeriodIsUnique(period, start, other);
    }
  }
}
